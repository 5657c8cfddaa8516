/**
 Label recognition (parseLabel in Toolchain/src/nandy_asm_tools.c): which lines start with a label, and
 that every label is a name the symbol table can be extended by without disturbing expressions.
 */
module LabelParser {
  import opened Lexer

  /** The characters of a label; the first one is not a digit. */
  predicate IsValidLabel(c: char, isFirst: bool) {
    IsAlpha(c) || c == '_' || (!isFirst && (IsAlpha(c) || IsDigit(c)))
  }

  predicate IsBlank(c: char) {
    IsSpace(c) && c != '\n'
  }

  /** A label, and the position behind its colon. */
  datatype Parsed = NoLabel | Label(name: string, next: nat)

  /** The position of the first character from i on that is not a blank. */
  function SkipBlanks(s: string, i: nat): (k: nat)
    ensures i <= k && !IsBlank(At(s, k)) && forall j :: i <= j < k ==> IsBlank(At(s, j))
    decreases |s| - i
  {
    if IsBlank(At(s, i)) then SkipBlanks(s, i + 1) else i
  }

  /** The position of the first character from i on that is not part of a word. */
  function SkipWord(s: string, i: nat): (k: nat)
    ensures i <= k && !IsWordChar(At(s, k)) && forall j :: i <= j < k ==> IsWordChar(At(s, j))
    decreases |s| - i
  {
    if IsWordChar(At(s, i)) then SkipWord(s, i + 1) else i
  }

  lemma WordInside(s: string, i: nat)
    requires i <= |s|
    ensures SkipWord(s, i) <= |s| && SkipBlanks(s, i) <= |s|
  {
    var k, b := SkipWord(s, i), SkipBlanks(s, i);
    assert k > |s| ==> IsWordChar(At(s, |s|));
    assert b > |s| ==> IsBlank(At(s, |s|));
  }

  /** A word that does not start with a digit, blanks, and a colon. */
  function LabelAt(s: string, i: nat): Parsed
    requires i <= |s|
  {
    WordInside(s, i);
    var end := SkipWord(s, i);
    WordInside(s, end);
    var colon := SkipBlanks(s, end);
    if end > i && !IsDigit(s[i]) && At(s, colon) == ':' then Label(s[i..end], colon + 1) else NoLabel
  }

  method ParseLabel(str: string, start: nat) returns (r: Parsed)
    requires start <= |str|
    ensures r == LabelAt(str, start)
  {
    var ptr: nat := start;
    var endOfWord: Option<nat> := None;
    while true
      invariant start <= ptr <= |str|
      invariant endOfWord.None? ==>
        SkipWord(str, ptr) == SkipWord(str, start) && (ptr > start ==> !IsDigit(str[start]))
      invariant endOfWord.Some? ==>
        && start <= endOfWord.value < ptr && endOfWord.value == SkipWord(str, start)
        && SkipBlanks(str, ptr) == SkipBlanks(str, endOfWord.value)
        && (endOfWord.value > start ==> !IsDigit(str[start]))
      decreases |str| - ptr
    {
      var c := At(str, ptr);
      if c == ':' {
        if endOfWord.None? {
          endOfWord := Some(ptr);
        }
        if endOfWord.value > start {
          return Label(str[start..endOfWord.value], ptr + 1);
        } else {
          return NoLabel;
        }
      } else if c == '\n' {
        return NoLabel;
      } else if IsSpace(c) {
        if endOfWord.None? {
          endOfWord := Some(ptr);
        }
        ptr := ptr + 1;
      } else if endOfWord.Some? {
        return NoLabel;
      } else if !IsValidLabel(c, ptr == start) {
        return NoLabel;
      } else {
        ptr := ptr + 1;
      }
    }
  }

  /** The text from i on is this name, blanks up to a colon, and the rest from next on. */
  ghost predicate ReadsAs(s: string, i: nat, name: string, next: nat) {
    && IsIdentifier(name) && HasPrefix(s, i, name) && i + |name| < next <= |s| && s[next - 1] == ':'
    && forall j :: i + |name| <= j < next - 1 ==> IsBlank(s[j])
  }

  lemma LabelReads(s: string, i: nat)
    requires i <= |s| && LabelAt(s, i).Label?
    ensures ReadsAs(s, i, LabelAt(s, i).name, LabelAt(s, i).next)
  {
    hide IsBlank, IsAlpha, IsDigit, IsSpace;
    WordInside(s, i);
    var end := SkipWord(s, i);
    WordInside(s, end);
    var name := s[i..end];
    forall k | 0 <= k < |name|
      ensures IsWordChar(name[k])
    {
      assert IsWordChar(At(s, i + k));
    }
    forall j | end <= j < LabelAt(s, i).next - 1
      ensures IsBlank(s[j])
    {
      assert IsBlank(At(s, j));
    }
    FirstOfWord(s[i]);
  }

  lemma FirstOfWord(c: char)
    ensures IsWordChar(c) && !IsDigit(c) ==> IsAlpha(c) || c == '_'
    ensures IsAlpha(c) || c == '_' ==> !IsDigit(c)
    ensures IsBlank(c) || c == ':' ==> !IsWordChar(c)
    ensures c == ':' ==> !IsBlank(c)
  {
  }

  lemma ReadsIsLabel(s: string, i: nat, name: string, next: nat)
    requires i <= |s| && ReadsAs(s, i, name, next)
    ensures LabelAt(s, i) == Label(name, next)
  {
    hide IsBlank, IsAlpha, IsDigit, IsSpace;
    var end := i + |name|;
    forall j | i <= j < end
      ensures IsWordChar(At(s, j))
    {
      assert s[j] == s[i..end][j - i];
    }
    FirstOfWord(s[end]);
    FirstOfWord(s[next - 1]);
    assert s[i] == s[i..end][0];
    FirstOfWord(s[i]);
    SameEnd(s, i, end);
    SameColon(s, end, next - 1);
  }

  /** Labels are exactly the lines that start with an identifier, blanks, and a colon. */
  lemma LabelsAreIdentifiers(s: string, i: nat, name: string, next: nat)
    requires i <= |s|
    ensures LabelAt(s, i) == Label(name, next) <==> ReadsAs(s, i, name, next)
  {
    hide ReadsAs, LabelAt;
    if LabelAt(s, i) == Label(name, next) {
      LabelReads(s, i);
    }
    if ReadsAs(s, i, name, next) {
      ReadsIsLabel(s, i, name, next);
    }
  }

  lemma SameEnd(s: string, i: nat, end: nat)
    requires i <= end && !IsWordChar(At(s, end)) && forall j :: i <= j < end ==> IsWordChar(At(s, j))
    ensures SkipWord(s, i) == end
  {
  }

  lemma SameColon(s: string, i: nat, k: nat)
    requires i <= k && !IsBlank(At(s, k)) && forall j :: i <= j < k ==> IsBlank(At(s, j))
    ensures SkipBlanks(s, i) == k
  {
  }
}
