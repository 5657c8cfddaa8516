/** An expression that is a single name, with or without blanks around it. */
module Names {
  import opened Lexer
  import opened Operators
  import opened ShuntingYard
  import opened SymTab
  import opened Grammar
  import opened Words
  import LabelParser

  /** The text is the name, with blanks in front and behind. */
  ghost predicate IsPadded(s: string, name: string) {
    exists i: nat :: StandsAt(s, name, i)
  }

  ghost predicate StandsAt(s: string, name: string, i: nat) {
    && IsIdentifier(name) && HasPrefix(s, i, name)
    && (forall j :: 0 <= j < i ==> IsSpace(s[j])) && forall j :: i + |name| <= j < |s| ==> IsSpace(s[j])
  }

  lemma {:induction false} NoInt(s: string, i: nat, k: nat)
    requires i < |s| && StartsName(s[i]) && k <= |PREFIXES|
    ensures IntFrom(s, i, k).NotFound?
    decreases |PREFIXES| - k
  {
    if k < |PREFIXES| {
      PrefixHead(s, i, PREFIXES[k].0);
      NoInt(s, i, k + 1);
    }
  }

  lemma NoConstant(scan: EscapeScanner, s: string, i: nat)
    requires i < |s| && StartsName(s[i])
    ensures Constant(scan, s, i).NotFound? && s[i] != '\0' && !IsSpace(s[i])
  {
    hide IntFrom;
    NoInt(s, i, 0);
  }

  lemma {:induction false} ReadBlanks(scan: EscapeScanner, s: string, i: nat, k: nat, lastNumber: bool)
    requires i <= k <= |s| && forall j :: i <= j < k ==> IsSpace(s[j])
    ensures Read(scan, s, i, lastNumber) == Read(scan, s, k, lastNumber)
    decreases k - i
  {
    hide Constant, Operator, StartsName, LabelParser.SkipWord;
    if i < k {
      ReadBlanks(scan, s, i + 1, k, lastNumber);
    }
  }

  /** The word at the name is the name. */
  lemma WordIsName(s: string, name: string, i: nat)
    requires StandsAt(s, name, i)
    ensures i < |s| && StartsName(s[i]) && LabelParser.SkipWord(s, i) == i + |name| && s[i..i + |name|] == name
  {
    var end := i + |name|;
    assert forall j :: i <= j < end ==> s[j] == s[i..end][j - i];
    LabelParser.SameEnd(s, i, end);
  }

  lemma PaddedReads(scan: EscapeScanner, s: string, name: string)
    requires IsPadded(s, name)
    ensures Read(scan, s, 0, false) == Some([Num(Name(name))])
  {
    hide Constant, StartsName;
    var i: nat :| StandsAt(s, name, i);
    var end := i + |name|;
    WordIsName(s, name, i);
    NoConstant(scan, s, i);
    ReadBlanks(scan, s, 0, i, false);
    ReadBlanks(scan, s, end, |s|, true);
    assert Read(scan, s, |s|, true) == Some([]);
    assert Read(scan, s, i, false) == Behind(Num(Name(name)), Read(scan, s, end, true));
    var t: Token<Word> := Num(Name(name));
    assert [t] + [] == [t];
  }

  lemma NameIsItsValue(env: Env, sem: Sem<int>, s: string, name: string, value: int)
    requires Identifiers(env.symbols) && IsPadded(s, name) && Symbol(name, value) in env.symbols
    ensures ParseExp(env, sem, s) == Ok(value)
  {
    hide ParseExp, Read, IsPadded, Identifiers;
    var e := Leaf(Name(name));
    PaddedReads(env.scan, s, name);
    assert UniqueNames(env.symbols) by { IdentifiersUnique(env.symbols); }
    LookupIsMembership(env.symbols, name, value);
    ValueOfTree(env, sem, s, e);
  }

  lemma IdentifiersUnique(symbols: seq<Symbol>)
    requires Identifiers(symbols)
    ensures UniqueNames(symbols)
  {
  }

  /** A name that is not bound is not recognised, even when some symbol is a prefix of it. */
  lemma UnknownName(env: Env, sem: Sem<int>, s: string, name: string)
    requires Identifiers(env.symbols) && IsPadded(s, name) && !IsBound(env.symbols, name)
    ensures ParseExp(env, sem, s) == Error(Unrecognized)
  {
    hide Operand, OperatorFrom, Constant, StartsName, Identifiers, IsBound;
    var i: nat :| StandsAt(s, name, i);
    WordIsName(s, name, i);
    NoConstant(env.scan, s, i);
    NameLexes(env, s, i);
    ExecBlanks(env, sem, s, 0, i, EMPTY);
    assert IsWordChar(At(s, i));
    NoOperatorAtWord(s, i, true, 0);
    var f := Operand(env, s, i);
    if f.Found? {
      NoOperatorAtWord(s, f.next, false, 0);
      assert !IsSpace(s[f.next]) && s[f.next] != '\0' by { WordIsNoSpace(s[f.next]); }
    }
  }

  lemma WordIsNoSpace(c: char)
    ensures IsWordChar(c) ==> !IsSpace(c) && c != '\0'
  {
  }

  lemma {:induction false} ExecBlanks(env: Env, sem: Sem<int>, s: string, i: nat, k: nat, st: State<int>)
    requires i <= k <= |s| && (forall j :: i <= j < k ==> IsSpace(s[j])) && st.status == Done
    ensures Exec(env, sem, s, i, st) == Exec(env, sem, s, k, st)
    decreases k - i
  {
    hide Operand, Operator, Push;
    if i < k {
      ExecBlanks(env, sem, s, i + 1, k, st);
    }
  }
}
