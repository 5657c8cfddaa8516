/**
 The emulated CompactFlash card of Toolchain/src/ios_compactflash.c with a disk image behind it: its
 registers, and the transfer of the sectors a READ SECTOR(S) command asks for.
 */
module CompactFlash {
  import opened Bytes
  import opened Lexer

  // ----- registers

  const DATA := 0
  const ERROR_FEATURE := 1
  const SECTOR_COUNT := 2
  const LBA_7_0 := 3
  const LBA_15_8 := 4
  const LBA_23_16 := 5
  const LBA_27_24_MODE := 6
  const STATUS_CMD := 7

  type Registers = r: seq<Byte> | |r| == 8 witness [0, 0, 0, 0, 0, 0, 0, 0]

  /** One bit of a byte, given by its weight. */
  function WithBit(b: Byte, weight: nat, on: bool): Byte
    requires weight == 1 || weight == 8 || weight == 64 || weight == 128
  {
    b - b / weight % 2 * weight + (if on then weight else 0)
  }

  predicate HasBit(b: Byte, weight: nat)
    requires weight > 0
  {
    b / weight % 2 == 1
  }

  const DRQ := 8
  const RDY := 64
  const BUSY := 128
  const ERR := 1

  // ----- the card

  datatype Buffer = Disk | Identity

  /** A pointer into one of the buffers. */
  datatype Seek = Seek(buffer: Buffer, pos: nat)

  /** A size_t has 64 bits. */
  const SIZE_MODULUS := 0x1_0000_0000_0000_0000

  /** The disk is None if there is no image. The identity has 512 bytes, whose meaning does not matter. */
  datatype Card = Card(
    disk: Option<seq<Byte>>, identity: seq<Byte>,
    registers: Registers, error: Byte, feat8bit: bool, seek: Option<Seek>, regionSize: nat)

  ghost predicate IsCard(s: Card) {
    |s.identity| == 512 && s.regionSize < SIZE_MODULUS
  }

  const RESET: Registers := [0, 0, 0, 0, 0, 0, 0xA0, 0x40]

  function PowerUp(disk: Option<seq<Byte>>, identity: seq<Byte>): Card {
    Card(disk, identity, RESET, 0, false, None, 0)
  }

  function Contents(s: Card, buffer: Buffer): seq<Byte> {
    if buffer == Identity then s.identity else if s.disk.Some? then s.disk.value else []
  }

  /** What an access comes to: the program goes on, or the emulator gives up, or it reads memory that
      does not belong to the buffer. */
  datatype Result = Running(card: Card, acc: Byte) | Exited | OutOfBounds

  function SetStatus(s: Card, status: Byte): Card {
    s.(registers := s.registers[STATUS_CMD := status])
  }

  function Abort(s: Card): Card {
    SetStatus(s, WithBit(s.registers[STATUS_CMD], ERR, true)).(error := s.error - s.error % 2 - s.error / 4 % 2 * 4 + 5)
  }

  function SeekTo(s: Card, buffer: Buffer, pos: nat, size: nat): Card {
    var s' := s.(seek := Some(Seek(buffer, pos)), regionSize := size);
    if size == 0 then s'
    else
      var status := s.registers[STATUS_CMD];
      SetStatus(s', WithBit(WithBit(WithBit(status, DRQ, true), RDY, true), BUSY, false))
  }

  function SectorAddress(r: Registers): nat {
    (r[LBA_27_24_MODE] as nat % 16) * 0x1000000 + r[LBA_23_16] as nat * 0x10000 + r[LBA_15_8] as nat * 0x100 +
    r[LBA_7_0] as nat
  }

  predicate IsRead(cmd: Byte) {
    cmd == 0x20 || cmd == 0x21
  }

  predicate LbaMode(r: Registers) {
    r[LBA_27_24_MODE] / 16 == 0xE
  }

  /** The command register. */
  function Command(s: Card, cmd: Byte): Result {
    var s0 := s.(error := 0);
    if IsRead(cmd) then
      var addr, size := 512 * SectorAddress(s.registers), 512 * s.registers[SECTOR_COUNT] as nat;
      if !LbaMode(s.registers) || addr + size > |Contents(s, Disk)| then Exited
      else Running(SeekTo(s0, Disk, addr, size), cmd)
    else if cmd == 0xEC then Running(SeekTo(s0, Identity, 0, 512), cmd)
    else if cmd == 0xEF then
      var feature := s.registers[ERROR_FEATURE];
      if feature == 0x01 then Running(s0.(feat8bit := true), cmd)
      else if feature == 0x81 then Running(s0.(feat8bit := false), cmd)
      else Running(Abort(s0), cmd)
    else Running(Abort(s0), cmd)
  }

  /** Reading the data register moves the transfer on; the count wraps around below zero. */
  function ReadData(s: Card, acc: Byte): Result {
    if s.seek.None? then Running(s, acc)
    else
      var Seek(buffer, pos) := s.seek.value;
      if pos >= |Contents(s, buffer)| then OutOfBounds
      else
        var left := (s.regionSize - 1) % SIZE_MODULUS;
        var s' := if left == 0 then SetStatus(s, WithBit(s.registers[STATUS_CMD], DRQ, false)).(seek := None)
                  else s.(seek := Some(Seek(buffer, pos + 1)));
        Running(s'.(regionSize := left), Contents(s, buffer)[pos])
  }

  /** What the processor does with the card in one step: it selects a register, and it reads it, writes
      it, or both. */
  datatype Access = Access(sel: nat, read: bool, write: bool)

  predicate IsAccess(x: Access) {
    x.sel < 8
  }

  function ReadAccess(s: Card, x: Access, acc: Byte): Result
    requires IsAccess(x)
  {
    if !x.read then Running(s, acc)
    else if s.disk.None? then Running(s, 0xFF)
    else if x.sel == ERROR_FEATURE then Running(s, s.error)
    else if x.sel == DATA then ReadData(s, acc)
    else Running(s, s.registers[x.sel])
  }

  function WriteAccess(s: Card, x: Access, acc: Byte): Result
    requires IsAccess(x)
  {
    if !x.write || s.disk.None? then Running(s, acc)
    else if x.sel == STATUS_CMD then Command(s, acc)
    else Running(s.(registers := s.registers[x.sel := acc]), acc)
  }

  /** io_step_compactflash when the card is selected. What is written is what has just been read, if
      both happen in one step. */
  function Step(s: Card, x: Access, acc: Byte): Result
    requires IsAccess(x)
  {
    match ReadAccess(s, x, acc)
    case Running(s', acc') => WriteAccess(s', x, acc')
    case r => r
  }

  // ----- the device as the emulator has it

  datatype Ending = Continues | Exits | Overruns

  class Device {
    const disk: Option<seq<Byte>>
    const identity: seq<Byte>
    const registers: array<Byte>
    var errorRegister: Byte
    var feat8bit: bool
    var seekPtr: Option<Seek>
    var regionSize: nat

    ghost predicate Valid()
      reads this
    {
      registers.Length == 8 && |identity| == 512 && regionSize < SIZE_MODULUS
    }

    ghost function View(): Card
      requires Valid()
      reads this, registers
    {
      Card(disk, identity, registers[..], errorRegister, feat8bit, seekPtr, regionSize)
    }

    constructor (disk: Option<seq<Byte>>, identity: seq<Byte>)
      requires |identity| == 512
      ensures Valid() && fresh(registers) && View() == PowerUp(disk, identity)
    {
      this.disk := disk;
      this.identity := identity;
      registers := new Byte[8] [0, 0, 0, 0, 0, 0, 0xA0, 0x40];
      errorRegister := 0;
      feat8bit := false;
      seekPtr := None;
      regionSize := 0;
    }

    method CfAbort()
      requires Valid()
      modifies this`errorRegister, registers
      ensures View() == Abort(old(View()))
    {
      registers[STATUS_CMD] := WithBit(registers[STATUS_CMD], ERR, true);
      errorRegister := errorRegister - errorRegister % 2 - errorRegister / 4 % 2 * 4 + 5;
    }

    method MoveSeek(buffer: Buffer, pos: nat, size: nat)
      requires Valid() && size < SIZE_MODULUS
      modifies this`seekPtr, this`regionSize, registers
      ensures Valid() && View() == SeekTo(old(View()), buffer, pos, size)
    {
      seekPtr := Some(Seek(buffer, pos));
      regionSize := size;
      if size != 0 {
        registers[STATUS_CMD] := WithBit(WithBit(registers[STATUS_CMD], DRQ, true), RDY, true);
        registers[STATUS_CMD] := WithBit(registers[STATUS_CMD], BUSY, false);
      }
    }

    /** Whether the emulator gives up. */
    method CfCommand(cmd: Byte) returns (exit: bool)
      requires Valid() && disk.Some?
      modifies this, registers
      ensures Valid()
      ensures if exit then Command(old(View()), cmd) == Exited else Command(old(View()), cmd) == Running(View(), cmd)
    {
      hide WithBit;
      errorRegister := 0;
      exit := false;
      if cmd == 0x20 || cmd == 0x21 {
        if registers[LBA_27_24_MODE] / 16 != 0xE {
          return true;
        }
        var sectorAddr: nat := SectorAddress(registers[..]);
        var byteAddr, byteSize := 512 * sectorAddr, 512 * registers[SECTOR_COUNT] as nat;
        if byteAddr + byteSize > |disk.value| {
          return true;
        }
        MoveSeek(Disk, byteAddr, byteSize);
      } else if cmd == 0xEC {
        MoveSeek(Identity, 0, 512);
      } else if cmd == 0xEF {
        if registers[ERROR_FEATURE] == 0x01 {
          feat8bit := true;
        } else if registers[ERROR_FEATURE] == 0x81 {
          feat8bit := false;
        } else {
          CfAbort();
        }
      } else {
        CfAbort();
      }
    }

    method ReadDataRegister(acc: Byte) returns (ending: Ending, acc': Byte)
      requires Valid()
      modifies this, registers
      ensures Valid() && Describes(ReadData(old(View()), acc), ending, View(), acc')
    {
      hide WithBit;
      ending, acc' := Continues, acc;
      if seekPtr.Some? {
        var at := seekPtr.value;
        var buffer := if at.buffer == Identity then identity else if disk.Some? then disk.value else [];
        if at.pos >= |buffer| {
          return Overruns, acc;
        }
        acc' := buffer[at.pos];
        seekPtr := Some(Seek(at.buffer, at.pos + 1));
        regionSize := (regionSize - 1) % SIZE_MODULUS;
        if regionSize == 0 {
          registers[STATUS_CMD] := WithBit(registers[STATUS_CMD], DRQ, false);
          seekPtr := None;
        }
      }
    }

    method IoStep(x: Access, acc: Byte) returns (ending: Ending, acc': Byte)
      requires Valid() && IsAccess(x)
      modifies this, registers
      ensures Valid() && Describes(Step(old(View()), x, acc), ending, View(), acc')
    {
      hide Command, ReadData;
      ending, acc' := Continues, acc;
      if x.read {
        if disk.None? {
          acc' := 0xFF;
        } else if x.sel == ERROR_FEATURE {
          acc' := errorRegister;
        } else if x.sel == DATA {
          ending, acc' := ReadDataRegister(acc);
          if ending != Continues {
            return;
          }
        } else {
          acc' := registers[x.sel];
        }
      }
      if x.write && disk.Some? {
        if x.sel == STATUS_CMD {
          var exit := CfCommand(acc');
          ending := if exit then Exits else Continues;
        } else {
          registers[x.sel] := acc';
        }
      }
    }
  }

  ghost predicate Describes(r: Result, ending: Ending, card: Card, acc: Byte) {
    match r
    case Running(s, a) => ending == Continues && card == s && acc == a
    case Exited => ending == Exits
    case OutOfBounds => ending == Overruns
  }

  // ----- what holds on every run

  predicate Requesting(s: Card) {
    HasBit(s.registers[STATUS_CMD], DRQ)
  }

  /** Data is requested exactly when a transfer is under way, which has something left and stays inside
      its buffer. */
  ghost predicate Inv(s: Card) {
    && IsCard(s) && (Requesting(s) <==> s.seek.Some?)
    && (s.seek.Some? ==> 0 < s.regionSize && s.seek.value.pos + s.regionSize <= |Contents(s, s.seek.value.buffer)|)
  }

  lemma PowerUpInv(disk: Option<seq<Byte>>, identity: seq<Byte>)
    requires |identity| == 512
    ensures Inv(PowerUp(disk, identity))
  {
  }

  /** A command keeps the invariant exactly if it is not a read of zero sectors. */
  lemma CommandInv(s: Card, cmd: Byte)
    requires Inv(s) && Command(s, cmd).Running?
    ensures Inv(Command(s, cmd).card) <==> !(IsRead(cmd) && s.registers[SECTOR_COUNT] == 0)
  {
    hide WithBit, SectorAddress, LbaMode;
    var status := s.registers[STATUS_CMD];
    TransferStatus(status);
    ErrorStatus(status);
  }

  lemma TransferStatus(b: Byte)
    ensures HasBit(WithBit(WithBit(WithBit(b, DRQ, true), RDY, true), BUSY, false), DRQ)
  {
  }

  lemma ErrorStatus(b: Byte)
    ensures HasBit(WithBit(b, ERR, true), DRQ) == HasBit(b, DRQ)
  {
  }

  lemma ReadKeepsInv(s: Card, x: Access, acc: Byte)
    requires Inv(s) && IsAccess(x)
    ensures var r := ReadAccess(s, x, acc);
            r.Running? && Inv(r.card) && r.card.disk == s.disk && r.card.identity == s.identity
  {
    hide WithBit;
    if s.seek.Some? {
      StatusBits(s.registers[STATUS_CMD]);
    }
  }

  lemma StatusBits(b: Byte)
    ensures !HasBit(WithBit(b, DRQ, false), DRQ) && HasBit(WithBit(b, DRQ, true), DRQ)
  {
  }

  /** The command a step gives, if any. */
  function GivenCommand(s: Card, x: Access, acc: Byte): Option<Byte>
    requires IsAccess(x)
  {
    match ReadAccess(s, x, acc)
    case Running(s', acc') => if x.write && x.sel == STATUS_CMD && s.disk.Some? then Some(acc') else None
    case _ => None
  }

  predicate ReadsNothing(s: Card, x: Access, acc: Byte)
    requires IsAccess(x)
  {
    var cmd := GivenCommand(s, x, acc);
    cmd.Some? && IsRead(cmd.value) && s.registers[SECTOR_COUNT] == 0
  }

  /** One access: the buffers are never overrun, and the invariant is kept exactly if the step does not
      command a read of zero sectors. */
  lemma StepInv(s: Card, x: Access, acc: Byte)
    requires Inv(s) && IsAccess(x)
    ensures Step(s, x, acc) != OutOfBounds
    ensures Step(s, x, acc).Running? ==> (Inv(Step(s, x, acc).card) <==> !ReadsNothing(s, x, acc))
  {
    hide Command, WithBit, HasBit;
    ReadKeepsInv(s, x, acc);
    var s', acc' := ReadAccess(s, x, acc).card, ReadAccess(s, x, acc).acc;
    if x.write && s.disk.Some? && x.sel == STATUS_CMD {
      CommandStays(s', acc');
      if Command(s', acc').Running? {
        CommandInv(s', acc');
      }
    }
  }

  lemma CommandStays(s: Card, cmd: Byte)
    ensures Command(s, cmd) != OutOfBounds
  {
    hide WithBit;
  }

  /** A step of the program: an access, and what the accumulator holds. */
  datatype Event = Event(x: Access, acc: Byte)

  ghost predicate AreEvents(es: seq<Event>) {
    forall i :: 0 <= i < |es| ==> IsAccess(es[i].x)
  }

  function Run(s: Card, es: seq<Event>): Option<Card>
    requires AreEvents(es)
    decreases |es|
  {
    if es == [] then Some(s)
    else
      match Step(s, es[0].x, es[0].acc)
      case Running(s', _) => Run(s', es[1..])
      case _ => None
  }

  /** The run never commands a read of zero sectors. */
  predicate NeverReadsNothing(s: Card, es: seq<Event>)
    requires AreEvents(es)
    decreases |es|
  {
    es == [] ||
    (!ReadsNothing(s, es[0].x, es[0].acc) &&
     match Step(s, es[0].x, es[0].acc)
     case Running(s', _) => NeverReadsNothing(s', es[1..])
     case _ => true)
  }

  /** Every such run keeps the invariant. */
  lemma {:induction false} RunInv(s: Card, es: seq<Event>)
    requires Inv(s) && AreEvents(es) && NeverReadsNothing(s, es)
    ensures Run(s, es).Some? ==> Inv(Run(s, es).value)
    decreases |es|
  {
    hide Step, Inv, ReadsNothing;
    if es != [] {
      StepInv(s, es[0].x, es[0].acc);
      match Step(s, es[0].x, es[0].acc)
      case Running(s', _) => RunInv(s', es[1..]);
      case _ =>
    }
  }

  /** On every such run from power-up, data is requested exactly while a transfer has bytes left inside
      its buffer. */
  lemma RunFromPowerUp(disk: Option<seq<Byte>>, identity: seq<Byte>, es: seq<Event>)
    requires |identity| == 512 && AreEvents(es) && NeverReadsNothing(PowerUp(disk, identity), es)
    requires Run(PowerUp(disk, identity), es).Some?
    ensures Inv(Run(PowerUp(disk, identity), es).value)
    ensures Run(PowerUp(disk, identity), es).value.disk == disk
  {
    hide Run, NeverReadsNothing;
    PowerUpInv(disk, identity);
    RunInv(PowerUp(disk, identity), es);
    RunKeepsDisk(PowerUp(disk, identity), es);
  }

  lemma {:induction false} RunKeepsDisk(s: Card, es: seq<Event>)
    requires AreEvents(es)
    ensures Run(s, es).Some? ==> Run(s, es).value.disk == s.disk
    decreases |es|
  {
    hide Step;
    if es != [] {
      StepKeepsDisk(s, es[0]);
      match Step(s, es[0].x, es[0].acc)
      case Running(s', _) => RunKeepsDisk(s', es[1..]);
      case _ =>
    }
  }

  lemma StepKeepsDisk(s: Card, e: Event)
    requires IsAccess(e.x)
    ensures var r := Step(s, e.x, e.acc); r.Running? ==> r.card.disk == s.disk
  {
    hide WithBit, SectorAddress;
  }

  lemma {:induction false} RunConcat(s: Card, xs: seq<Event>, ys: seq<Event>)
    requires AreEvents(xs) && AreEvents(ys)
    ensures AreEvents(xs + ys)
    ensures Run(s, xs + ys) == if Run(s, xs).Some? then Run(Run(s, xs).value, ys) else None
    decreases |xs|
  {
    hide Step, IsAccess;
    if xs == [] {
      assert xs + ys == ys;
    } else {
      assert (xs + ys)[0] == xs[0] && (xs + ys)[1..] == xs[1..] + ys;
      if Step(s, xs[0].x, xs[0].acc).Running? {
        RunConcat(Step(s, xs[0].x, xs[0].acc).card, xs[1..], ys);
      }
    }
  }

  lemma ReadHead(s: Card, e: Event, rest: seq<Event>)
    requires IsAccess(e.x) && AreEvents(rest)
    ensures AreEvents([e] + rest)
    ensures var r := Step(s, e.x, e.acc);
            DataRead(s, [e] + rest)
            == if r.Running? then (if IsDataRead(e) then [r.acc] else []) + DataRead(r.card, rest) else []
    ensures var r := Step(s, e.x, e.acc);
            Run(s, [e] + rest) == if r.Running? then Run(r.card, rest) else None
  {
    hide Step, IsAccess, IsDataRead;
    assert ([e] + rest)[1..] == rest;
  }

  lemma EventsTail(xs: seq<Event>, ys: seq<Event>)
    requires AreEvents(xs) && AreEvents(ys) && xs != []
    ensures IsAccess(xs[0].x) && AreEvents(xs[1..]) && AreEvents(xs[1..] + ys)
    ensures xs == [xs[0]] + xs[1..] && xs + ys == [xs[0]] + (xs[1..] + ys)
  {
  }

  lemma Associates(a: seq<Byte>, b: seq<Byte>, c: seq<Byte>)
    ensures a + (b + c) == (a + b) + c && a + b + [] == a + b
  {
  }

  lemma {:induction false} ReadConcat(s: Card, xs: seq<Event>, ys: seq<Event>)
    requires AreEvents(xs) && AreEvents(ys) && AreEvents(xs + ys)
    ensures DataRead(s, xs + ys) == DataRead(s, xs) + (if Run(s, xs).Some? then DataRead(Run(s, xs).value, ys) else [])
    decreases |xs|
  {
    if xs == [] {
      assert xs + ys == ys;
    } else {
      hide Step, IsAccess, IsDataRead, DataRead, Run, AreEvents;
      EventsTail(xs, ys);
      ReadHead(s, xs[0], xs[1..]);
      ReadHead(s, xs[0], xs[1..] + ys);
      var r := Step(s, xs[0].x, xs[0].acc);
      if r.Running? {
        ReadConcat(r.card, xs[1..], ys);
        var end := Run(r.card, xs[1..]);
        Associates(if IsDataRead(xs[0]) then [r.acc] else [], DataRead(r.card, xs[1..]),
                   if end.Some? then DataRead(end.value, ys) else []);
      }
    }
  }

  // ----- a transfer

  /** No command is given. */
  ghost predicate CommandFree(es: seq<Event>) {
    AreEvents(es) && forall i :: 0 <= i < |es| ==> !(es[i].x.write && es[i].x.sel == STATUS_CMD)
  }

  predicate IsDataRead(e: Event) {
    e.x.read && e.x.sel == 0
  }

  function CountData(es: seq<Event>): nat {
    if es == [] then 0 else (if IsDataRead(es[0]) then 1 else 0) + CountData(es[1..])
  }

  /** The bytes that the reads of the data register deliver. */
  function DataRead(s: Card, es: seq<Event>): seq<Byte>
    requires AreEvents(es)
    decreases |es|
  {
    if es == [] then []
    else
      match Step(s, es[0].x, es[0].acc)
      case Running(s', acc) => (if IsDataRead(es[0]) then [acc] else []) + DataRead(s', es[1..])
      case _ => []
  }

  /** Where a transfer stands that has delivered the first k of the bytes it had left. */
  ghost predicate Delivered(s: Card, k: nat, s': Card)
    requires Inv(s) && s.seek.Some? && k <= s.regionSize
  {
    && Inv(s') && s'.disk == s.disk && s'.identity == s.identity
    && if k == s.regionSize then s'.seek == None
       else s'.seek == Some(Seek(s.seek.value.buffer, s.seek.value.pos + k)) && s'.regionSize == s.regionSize - k
  }

  lemma TransferStep(s: Card, e: Event)
    requires Inv(s) && s.disk.Some? && s.seek.Some? && IsAccess(e.x) && !(e.x.write && e.x.sel == STATUS_CMD)
    ensures var r := Step(s, e.x, e.acc);
            && r.Running? && Delivered(s, if IsDataRead(e) then 1 else 0, r.card)
            && (IsDataRead(e) ==> r.acc == Contents(s, s.seek.value.buffer)[s.seek.value.pos])
  {
    hide WithBit;
    StatusBits(s.registers[STATUS_CMD]);
  }

  /** After the last byte further data reads deliver whatever the accumulator holds. */
  lemma {:induction false} AfterTransfer(s: Card, es: seq<Event>)
    requires Inv(s) && s.disk.Some? && s.seek.None? && CommandFree(es)
    ensures var r := Run(s, es);
            r.Some? && Inv(r.value) && r.value.seek == None && r.value.disk == s.disk && r.value.identity == s.identity
    ensures CountData(es) == 0 ==> DataRead(s, es) == []
    decreases |es|
  {
    hide Inv, Step;
    if es != [] {
      IdleStep(s, es[0]);
      AfterTransfer(Step(s, es[0].x, es[0].acc).card, es[1..]);
    }
  }

  lemma IdleStep(s: Card, e: Event)
    requires Inv(s) && s.disk.Some? && s.seek.None? && IsAccess(e.x) && !(e.x.write && e.x.sel == STATUS_CMD)
    ensures var r := Step(s, e.x, e.acc);
            && r.Running? && Inv(r.card) && r.card.seek == None
            && r.card.disk == s.disk && r.card.identity == s.identity
  {
  }

  /** As long as there is something left, the data reads deliver the buffer in order, whatever other
      registers are read or written in between. */
  lemma {:induction false} Transfer(s: Card, es: seq<Event>)
    requires Inv(s) && s.disk.Some? && s.seek.Some? && CommandFree(es) && CountData(es) <= s.regionSize
    ensures var k, pos := CountData(es), s.seek.value.pos;
            && DataRead(s, es) == Contents(s, s.seek.value.buffer)[pos..pos + k]
            && Run(s, es).Some? && Delivered(s, k, Run(s, es).value)
    decreases |es|
  {
    if es != [] {
      hide Step, Contents, Inv, IsAccess, IsDataRead;
      var e, pos, bytes := es[0], s.seek.value.pos, Contents(s, s.seek.value.buffer);
      TransferStep(s, e);
      var s' := Step(s, e.x, e.acc).card;
      if s'.seek.Some? {
        Transfer(s', es[1..]);
        assert Contents(s', s.seek.value.buffer) == bytes;
      } else {
        AfterTransfer(s', es[1..]);
      }
    }
  }

  // ----- reading sectors

  /** The registers ask for n sectors from sector lba on. */
  ghost predicate Addresses(r: Registers, lba: nat, n: nat) {
    && r[2] as nat == n && lba < 0x10000000 && r[6] / 16 == 0xE
    && r[6] as nat % 16 == lba / 0x1000000 && r[5] as nat == lba / 0x10000 % 0x100
    && r[4] as nat == lba / 0x100 % 0x100 && r[3] as nat == lba % 0x100
  }

  lemma SectorAddressOf(r: Registers, lba: nat, n: nat)
    requires Addresses(r, lba, n)
    ensures SectorAddress(r) == lba
  {
    assert lba == lba / 0x100 * 0x100 + lba % 0x100;
    assert lba / 0x100 == lba / 0x10000 * 0x100 + lba / 0x100 % 0x100;
    assert lba / 0x10000 == lba / 0x1000000 * 0x100 + lba / 0x10000 % 0x100;
  }

  /** A read command for sectors that are there starts a transfer of exactly those; it ends the program if
      some of them are not there. */
  /** Commanding a read by cylinder ends the program. */
  lemma CylindersExit(s: Card, cmd: Byte)
    requires (cmd == 0x20 || cmd == 0x21) && s.registers[6] / 16 != 0xE
    ensures Command(s, cmd) == Exited
  {
  }

  lemma CommandReads(s: Card, lba: nat, n: nat, cmd: Byte)
    requires Inv(s) && s.disk.Some? && (cmd == 0x20 || cmd == 0x21) && Addresses(s.registers, lba, n) && n > 0
    ensures var r := Command(s, cmd);
            if 512 * (lba + n) <= |s.disk.value| then
              && r.Running? && Inv(r.card) && r.card.disk == s.disk && r.card.error == 0
              && r.card.seek == Some(Seek(Disk, 512 * lba)) && r.card.regionSize == 512 * n
            else r == Exited
  {
    hide WithBit;
    SectorAddressOf(s.registers, lba, n);
    StatusBits(s.registers[STATUS_CMD]);
    if 512 * (lba + n) <= |s.disk.value| {
      CommandInv(s, cmd);
    }
  }

  /** From a state in which the registers address sectors that are there. */
  lemma ReadsFrom(s: Card, lba: nat, n: nat, cmd: Byte, es: seq<Event>)
    requires Inv(s) && s.disk.Some? && (cmd == 0x20 || cmd == 0x21) && Addresses(s.registers, lba, n) && n > 0
    requires 512 * (lba + n) <= |s.disk.value| && CommandFree(es) && CountData(es) <= 512 * n
    ensures Command(s, cmd).Running?
    ensures var s' := Command(s, cmd).card;
            && DataRead(s', es) == s.disk.value[512 * lba..512 * lba + CountData(es)]
            && Run(s', es).Some?
            && (Requesting(Run(s', es).value) <==> CountData(es) < 512 * n)
  {
    hide Command, Run, DataRead, SectorAddress, LbaMode, HasBit;
    CommandReads(s, lba, n, cmd);
    Transfer(Command(s, cmd).card, es);
  }

  /** Writes to registers other than the command. */
  ghost predicate IsSetup(es: seq<Event>) {
    AreEvents(es) && forall i :: 0 <= i < |es| ==> es[i].x.write && !es[i].x.read && es[i].x.sel != STATUS_CMD
  }

  /** The registers after such writes: the last one to each counts. */
  function Written(r: Registers, es: seq<Event>): Registers
    requires IsSetup(es)
    decreases |es|
  {
    if es == [] then r else Written(r[es[0].x.sel := es[0].acc], es[1..])
  }

  lemma {:induction false} SetupWrites(s: Card, es: seq<Event>)
    requires IsSetup(es) && s.disk.Some?
    ensures Run(s, es) == Some(s.(registers := Written(s.registers, es))) && DataRead(s, es) == []
    ensures Written(s.registers, es)[STATUS_CMD] == s.registers[STATUS_CMD]
    decreases |es|
  {
    if es != [] {
      var s' := s.(registers := s.registers[es[0].x.sel := es[0].acc]);
      assert Step(s, es[0].x, es[0].acc) == Running(s', es[0].acc);
      SetupWrites(s', es[1..]);
    }
  }

  function Commanded(cmd: Byte): Event {
    Event(Access(7, false, true), cmd)
  }

  lemma CommandRuns(s: Card, cmd: Byte)
    requires s.disk.Some?
    ensures Run(s, [Commanded(cmd)]) == (if Command(s, cmd).Running? then Some(Command(s, cmd).card) else None)
    ensures DataRead(s, [Commanded(cmd)]) == []
  {
    hide Command;
    var es := [Commanded(cmd)];
    assert es[1..] == [];
  }

  // ----- what the program reads of the status

  /** Ready, and besides it only the request and the error. */
  predicate PlainStatus(b: Byte) {
    b as int == 0x40 + (if HasBit(b, DRQ) then 8 else 0) + (if HasBit(b, ERR) then 1 else 0)
  }

  lemma StatusStays(b: Byte)
    requires PlainStatus(b)
    ensures PlainStatus(WithBit(WithBit(WithBit(b, DRQ, true), RDY, true), BUSY, false))
    ensures PlainStatus(WithBit(b, DRQ, false)) && PlainStatus(WithBit(b, ERR, true))
  {
  }

  lemma StepKeepsStatus(s: Card, e: Event)
    requires IsAccess(e.x) && PlainStatus(s.registers[STATUS_CMD])
    ensures var r := Step(s, e.x, e.acc); r.Running? ==> PlainStatus(r.card.registers[STATUS_CMD])
  {
    hide WithBit, PlainStatus, SectorAddress, LbaMode;
    StatusStays(s.registers[STATUS_CMD]);
    var r := ReadAccess(s, e.x, e.acc);
    if r.Running? {
      StatusStays(r.card.registers[STATUS_CMD]);
    }
  }

  lemma {:induction false} RunKeepsStatus(s: Card, es: seq<Event>)
    requires AreEvents(es) && PlainStatus(s.registers[STATUS_CMD])
    ensures Run(s, es).Some? ==> PlainStatus(Run(s, es).value.registers[STATUS_CMD])
    decreases |es|
  {
    hide Step, PlainStatus;
    if es != [] {
      StepKeepsStatus(s, es[0]);
      match Step(s, es[0].x, es[0].acc)
      case Running(s', _) => RunKeepsStatus(s', es[1..]);
      case _ =>
    }
  }

  /** What a read of register sel would give the program. */
  function Answer(s: Card, sel: nat, acc: Byte): Byte
    requires sel < 8
  {
    match Step(s, Access(sel, true, false), acc)
    case Running(_, acc') => acc'
    case _ => acc
  }

  /** A read of the status, after any run from power-up: 0x40, with 8 for a request and 1 for the error. */
  lemma StatusAnswer(disk: seq<Byte>, identity: seq<Byte>, es: seq<Event>, acc: Byte)
    requires AreEvents(es) && Run(PowerUp(Some(disk), identity), es).Some?
    ensures var s0 := PowerUp(Some(disk), identity);
            var s := Run(s0, es).value;
            Answer(s, 7, acc) as int
            == 0x40 + (if Requesting(s) then 8 else 0) + (if SomeRejected(s0, es) then 1 else 0)
  {
    hide Run, SomeRejected;
    var s0 := PowerUp(Some(disk), identity);
    RunKeepsStatus(s0, es);
    RunKeepsDisk(s0, es);
    ErrorBitStays(s0, es);
  }

  /** Reading sectors, over one list of events from power-up: after any history without reads of zero
      sectors, once some writes have made the registers address n sectors and a read is commanded, the
      program goes on if and only if those sectors are there, and then the next 512 * n reads of the data
      register deliver exactly their bytes in order, whatever other registers are read or written in
      between. Data is requested until the last of them, and no longer, as a read of the status shows. */
  lemma ReadSectors(disk: seq<Byte>, identity: seq<Byte>, history: seq<Event>, setup: seq<Event>, cmd: Byte,
                    es: seq<Event>, lba: nat, n: nat, acc: Byte)
    requires |identity| == 512 && AreEvents(history) && IsSetup(setup) && CommandFree(es) && CountData(es) <= 512 * n
    requires NeverReadsNothing(PowerUp(Some(disk), identity), history) &&
             Run(PowerUp(Some(disk), identity), history).Some?
    requires (cmd == 0x20 || cmd == 0x21) && n > 0
    requires Addresses(Written(Run(PowerUp(Some(disk), identity), history).value.registers, setup), lba, n)
    ensures var s0, begin := PowerUp(Some(disk), identity), history + setup + [Commanded(cmd)];
            AreEvents(begin) && AreEvents(begin + es) &&
            if 512 * (lba + n) <= |disk| then
              && Run(s0, begin + es).Some?
              && DataRead(s0, begin + es) == DataRead(s0, history) + disk[512 * lba..512 * lba + CountData(es)]
              && (Requesting(Run(s0, begin + es).value) <==> CountData(es) < 512 * n)
              && Answer(Run(s0, begin + es).value, 7, acc) as int
                 == 0x40 + (if CountData(es) < 512 * n then 8 else 0) + (if SomeRejected(s0, begin + es) then 1 else 0)
            else Run(s0, begin) == None
  {
    hide Command, Run, DataRead, NeverReadsNothing, Addresses, Written, HasBit, PowerUp;
    var s0 := PowerUp(Some(disk), identity);
    RunFromPowerUp(Some(disk), identity, history);
    var s1 := Run(s0, history).value;
    SetupWrites(s1, setup);
    var s2 := Run(s1, setup).value;
    RunConcat(s0, history, setup);
    ReadConcat(s0, history, setup);
    CommandRuns(s2, cmd);
    RunConcat(s0, history + setup, [Commanded(cmd)]);
    ReadConcat(s0, history + setup, [Commanded(cmd)]);
    RunConcat(s0, history + setup + [Commanded(cmd)], es);
    ReadConcat(s0, history + setup + [Commanded(cmd)], es);
    CommandReads(s2, lba, n, cmd);
    if 512 * (lba + n) <= |disk| {
      ReadsFrom(s2, lba, n, cmd, es);
      StatusAnswer(disk, identity, history + setup + [Commanded(cmd)] + es, acc);
    }
  }

  lemma CommandIdentifies(s: Card)
    requires Inv(s) && s.disk.Some?
    ensures var r := Command(s, 0xEC);
            && r.Running? && Inv(r.card) && r.card.disk == s.disk && r.card.identity == s.identity
            && r.card.seek == Some(Seek(Identity, 0)) && r.card.regionSize == 512
  {
    hide WithBit;
    CommandInv(s, 0xEC);
  }

  lemma {:induction false} RunKeepsIdentity(s: Card, es: seq<Event>)
    requires AreEvents(es)
    ensures Run(s, es).Some? ==> Run(s, es).value.identity == s.identity
    decreases |es|
  {
    hide Step;
    if es != [] {
      StepKeepsIdentity(s, es[0]);
      match Step(s, es[0].x, es[0].acc)
      case Running(s', _) => RunKeepsIdentity(s', es[1..]);
      case _ =>
    }
  }

  lemma StepKeepsIdentity(s: Card, e: Event)
    requires IsAccess(e.x)
    ensures var r := Step(s, e.x, e.acc); r.Running? ==> r.card.identity == s.identity
  {
    hide WithBit, SectorAddress;
  }

  /** The same for IDENTIFY: after any such history the command is obeyed, and the next 512 reads of the data
      register deliver the identity in order. */
  lemma ReadIdentity(disk: seq<Byte>, identity: seq<Byte>, history: seq<Event>, es: seq<Event>, acc: Byte)
    requires |identity| == 512 && AreEvents(history) && CommandFree(es) && CountData(es) <= 512
    requires NeverReadsNothing(PowerUp(Some(disk), identity), history) &&
             Run(PowerUp(Some(disk), identity), history).Some?
    ensures var s0, begin := PowerUp(Some(disk), identity), history + [Commanded(0xEC)];
            && AreEvents(begin) && AreEvents(begin + es)
            && Run(s0, begin + es).Some?
            && DataRead(s0, begin + es) == DataRead(s0, history) + identity[..CountData(es)]
            && Answer(Run(s0, begin + es).value, 7, acc) as int
               == 0x40 + (if CountData(es) < 512 then 8 else 0) + (if SomeRejected(s0, begin + es) then 1 else 0)
  {
    hide Command, Run, DataRead, NeverReadsNothing, HasBit, PowerUp;
    var s0 := PowerUp(Some(disk), identity);
    assert s0.identity == identity by { PowersUp(Some(disk), identity); }
    RunFromPowerUp(Some(disk), identity, history);
    RunKeepsIdentity(s0, history);
    var s1 := Run(s0, history).value;
    CommandRuns(s1, 0xEC);
    CommandIdentifies(s1);
    RunConcat(s0, history, [Commanded(0xEC)]);
    ReadConcat(s0, history, [Commanded(0xEC)]);
    RunConcat(s0, history + [Commanded(0xEC)], es);
    ReadConcat(s0, history + [Commanded(0xEC)], es);
    Transfer(Command(s1, 0xEC).card, es);
    StatusAnswer(disk, identity, history + [Commanded(0xEC)] + es, acc);
  }

  lemma PowersUp(disk: Option<seq<Byte>>, identity: seq<Byte>)
    ensures PowerUp(disk, identity).identity == identity
  {
  }

  // ----- what the program reads of the other registers

  /** The last byte written to register i, or what is there at power-up. A step that reads and writes a
      register writes back what was there. */
  function LastWritten(es: seq<Event>, i: nat): Byte
    decreases |es|
  {
    if es == [] then if i == 6 then 0xA0 else 0
    else
      var e := es[|es| - 1];
      if e.x.write && !e.x.read && e.x.sel == i then e.acc else LastWritten(es[..|es| - 1], i)
  }

  lemma RunSnoc(s: Card, es: seq<Event>)
    requires AreEvents(es) && es != []
    ensures var front, e := es[..|es| - 1], es[|es| - 1];
            && AreEvents(front)
            && (Run(s, es).Some? ==>
                  Run(s, front).Some? && Step(Run(s, front).value, e.x, e.acc).Running? &&
                  Run(s, es).value == Step(Run(s, front).value, e.x, e.acc).card)
  {
    hide Step, IsAccess;
    var front, e := es[..|es| - 1], es[|es| - 1];
    assert es == front + [e];
    RunConcat(s, front, [e]);
    assert [e][1..] == [];
  }

  /** Registers 2 to 6 read back the last byte written to them, over any run from power-up. */
  lemma {:induction false} RegisterAnswer(disk: seq<Byte>, identity: seq<Byte>, es: seq<Event>, i: nat, acc: Byte)
    requires AreEvents(es) && Run(PowerUp(Some(disk), identity), es).Some? && 2 <= i <= 6
    ensures Answer(Run(PowerUp(Some(disk), identity), es).value, i, acc) == LastWritten(es, i)
    decreases |es|
  {
    hide Run;
    var s0 := PowerUp(Some(disk), identity);
    RunKeepsDisk(s0, es);
    if es == [] {
      NothingRun(s0);
    } else {
      var front, e := es[..|es| - 1], es[|es| - 1];
      RunSnoc(s0, es);
      RunKeepsDisk(s0, front);
      RegisterAnswer(disk, identity, front, i, acc);
      RegistersKept(Run(s0, front).value, e, i);
      ReadsWhatIsThere(Run(s0, front).value, e, i);
    }
  }

  lemma NothingRun(s: Card)
    ensures Run(s, []) == Some(s)
  {
  }

  lemma ReadsWhatIsThere(s: Card, e: Event, i: nat)
    requires IsAccess(e.x) && 2 <= i <= 6 && s.disk.Some? && Step(s, e.x, e.acc).Running?
    ensures e.x.write && e.x.sel == i ==> Step(s, e.x, e.acc).acc == if e.x.read then s.registers[i] else e.acc
  {
  }

  /** The last command of the run, if there was one, was rejected. */
  predicate LastRejected(s: Card, es: seq<Event>)
    requires AreEvents(es)
    decreases |es|
  {
    es != [] &&
    var front, e := es[..|es| - 1], es[|es| - 1];
    Run(s, front).Some? &&
    match GivenCommand(Run(s, front).value, e.x, e.acc)
    case None => LastRejected(s, front)
    case Some(cmd) => Rejected(Run(s, front).value.registers, cmd)
  }

  lemma StepReports(s: Card, e: Event)
    requires IsAccess(e.x) && Step(s, e.x, e.acc).Running?
    ensures var cmd := GivenCommand(s, e.x, e.acc);
            Step(s, e.x, e.acc).card.error
            == if cmd.None? then s.error else if Rejected(s.registers, cmd.value) then 5 else 0
  {
    hide Command, WithBit, HasBit, Rejected;
    var r := ReadAccess(s, e.x, e.acc);
    if e.x.write && e.x.sel == STATUS_CMD && s.disk.Some? {
      RejectedByRegisters(s.registers, r.card.registers, r.acc);
      CommandReports(r.card, r.acc);
    }
  }

  /** A read of the error register gives 5 if the last command was rejected, and 0 otherwise. */
  lemma {:induction false} ErrorAnswer(disk: seq<Byte>, identity: seq<Byte>, es: seq<Event>, acc: Byte)
    requires AreEvents(es) && Run(PowerUp(Some(disk), identity), es).Some?
    ensures Answer(Run(PowerUp(Some(disk), identity), es).value, 1, acc)
         == if LastRejected(PowerUp(Some(disk), identity), es) then 5 else 0
    decreases |es|
  {
    hide Run, Rejected, GivenCommand;
    var s0 := PowerUp(Some(disk), identity);
    RunKeepsDisk(s0, es);
    if es == [] {
      NothingRun(s0);
    } else {
      var front, e := es[..|es| - 1], es[|es| - 1];
      RunSnoc(s0, es);
      RunKeepsDisk(s0, front);
      ErrorAnswer(disk, identity, front, acc);
      StepReports(Run(s0, front).value, e);
    }
  }

  /** Without a card every register reads as 0xFF. */
  lemma NoCardAnswers(s: Card, sel: nat, acc: Byte)
    requires s.disk.None? && sel < 8
    ensures Answer(s, sel, acc) == 0xFF
  {
  }


  /** Registers keep the last value written to them, and commands and transfers change only the status. */
  lemma RegistersKept(s: Card, e: Event, i: nat)
    requires IsAccess(e.x) && Step(s, e.x, e.acc).Running? && i < STATUS_CMD
    ensures var r := Step(s, e.x, e.acc);
            r.card.registers[i] == if e.x.write && e.x.sel == i && s.disk.Some? then r.acc else s.registers[i]
  {
    hide WithBit;
  }

  predicate Rejected(r: Registers, cmd: Byte) {
    cmd != 0x20 && cmd != 0x21 && cmd != 0xEC && !(cmd == 0xEF && (r[1] == 0x01 || r[1] == 0x81))
  }

  /** What a command reports: the error register tells whether this command was rejected, but the error
      bit of the status, once set, is never cleared again. Only the two features change the data width. */
  lemma CommandReports(s: Card, cmd: Byte)
    requires Command(s, cmd).Running?
    ensures var s' := Command(s, cmd).card;
            && s'.error == (if Rejected(s.registers, cmd) then 5 else 0)
            && (HasBit(s'.registers[STATUS_CMD], ERR) <==>
                HasBit(s.registers[STATUS_CMD], ERR) || Rejected(s.registers, cmd))
            && (cmd == 0xEF && !Rejected(s.registers, cmd) ==> s'.feat8bit == (s.registers[1] == 0x01))
            && (cmd != 0xEF || Rejected(s.registers, cmd) ==> s'.feat8bit == s.feat8bit)
  {
    hide SectorAddress, LbaMode, WithBit, HasBit;
    var b := s.registers[STATUS_CMD];
    SetsError(b);
    KeepsError(b, DRQ, true);
    KeepsError(WithBit(b, DRQ, true), RDY, true);
    KeepsError(WithBit(WithBit(b, DRQ, true), RDY, true), BUSY, false);
  }

  /** Some command of the run is rejected. */
  predicate SomeRejected(s: Card, es: seq<Event>)
    requires AreEvents(es)
    decreases |es|
  {
    es != [] &&
    ((var cmd := GivenCommand(s, es[0].x, es[0].acc); cmd.Some? && Rejected(s.registers, cmd.value)) ||
     match Step(s, es[0].x, es[0].acc)
     case Running(s', _) => SomeRejected(s', es[1..])
     case _ => false)
  }

  lemma StepError(s: Card, e: Event)
    requires IsAccess(e.x) && Step(s, e.x, e.acc).Running?
    ensures var cmd := GivenCommand(s, e.x, e.acc);
            HasBit(Step(s, e.x, e.acc).card.registers[STATUS_CMD], ERR) <==>
            HasBit(s.registers[STATUS_CMD], ERR) || (cmd.Some? && Rejected(s.registers, cmd.value))
  {
    hide Command, WithBit, HasBit, Rejected;
    var r := ReadAccess(s, e.x, e.acc);
    KeepsError(s.registers[STATUS_CMD], DRQ, false);
    if e.x.write && e.x.sel == STATUS_CMD && s.disk.Some? {
      RejectedByRegisters(s.registers, r.card.registers, r.acc);
      CommandReports(r.card, r.acc);
    }
  }

  lemma RejectedByRegisters(r: Registers, r': Registers, cmd: Byte)
    requires r'[ERROR_FEATURE] == r[ERROR_FEATURE]
    ensures Rejected(r', cmd) == Rejected(r, cmd)
  {
  }

  /** Over whole runs: the error bit is set at the end if and only if it was at the start or some command was
      rejected; nothing clears it. */
  lemma {:induction false} ErrorBitStays(s: Card, es: seq<Event>)
    requires AreEvents(es) && Run(s, es).Some?
    ensures HasBit(Run(s, es).value.registers[STATUS_CMD], ERR) <==>
            HasBit(s.registers[STATUS_CMD], ERR) || SomeRejected(s, es)
    decreases |es|
  {
    hide Step, HasBit, GivenCommand, Rejected;
    if es != [] {
      StepError(s, es[0]);
      ErrorBitStays(Step(s, es[0].x, es[0].acc).card, es[1..]);
    }
  }

  lemma SetsError(b: Byte)
    ensures HasBit(WithBit(b, ERR, true), ERR)
  {
  }

  lemma KeepsError(b: Byte, weight: nat, on: bool)
    requires weight == DRQ || weight == RDY || weight == BUSY
    ensures HasBit(WithBit(b, weight, on), ERR) == HasBit(b, ERR)
  {
  }

  /** A pointer that moves through the disk while data is requested, or not, all the time. */
  ghost predicate Adrift(s: Card, pos: nat, requested: bool) {
    && s.disk.Some? && |s.disk.value| < SIZE_MODULUS && s.regionSize < SIZE_MODULUS && Requesting(s) == requested
    && s.seek == Some(Seek(Disk, pos)) && pos <= |s.disk.value|
    && (s.regionSize == 0 || s.regionSize > |s.disk.value| - pos)
  }

  lemma AdriftStep(s: Card, e: Event, pos: nat, requested: bool)
    requires Adrift(s, pos, requested) && IsAccess(e.x) && !(e.x.write && e.x.sel == STATUS_CMD)
    ensures var r := Step(s, e.x, e.acc);
            if IsDataRead(e) && pos == |s.disk.value| then r == OutOfBounds
            else
              && r.Running? && r.card.disk == s.disk
              && Adrift(r.card, if IsDataRead(e) then pos + 1 else pos, requested)
              && (IsDataRead(e) ==> r.acc == s.disk.value[pos])
  {
    hide WithBit;
  }

  /** However often the data register is read, the pointer moves on, and requests do not change, until it runs
      over the end of the disk. */
  lemma {:induction false} Drifts(s: Card, es: seq<Event>, pos: nat, requested: bool)
    requires Adrift(s, pos, requested) && CommandFree(es)
    ensures Run(s, es).Some? <==> pos + CountData(es) <= |s.disk.value|
    ensures Run(s, es).Some? ==>
              && Adrift(Run(s, es).value, pos + CountData(es), requested)
              && DataRead(s, es) == s.disk.value[pos..pos + CountData(es)]
    decreases |es|
  {
    hide Step, Adrift;
    if es == [] {
      assert pos <= |s.disk.value| by { AdriftInside(s, pos, requested); }
    } else {
      AdriftInside(s, pos, requested);
      AdriftStep(s, es[0], pos, requested);
      if Step(s, es[0].x, es[0].acc).Running? {
        Drifts(Step(s, es[0].x, es[0].acc).card, es[1..], if IsDataRead(es[0]) then pos + 1 else pos, requested);
      }
    }
  }

  lemma AdriftInside(s: Card, pos: nat, requested: bool)
    requires Adrift(s, pos, requested)
    ensures s.disk.Some? && pos <= |s.disk.value|
  {
  }

  /** A read of zero sectors: from then on reads of the data register deliver the disk from the addressed
      sector on, far beyond it, and the program goes on if and only if they stop by the end of the disk. All
      the time data is requested if it was before, in the middle of a transfer, and is not if it was not. */
  lemma ReadingNothing(s: Card, cmd: Byte, es: seq<Event>)
    requires Inv(s) && s.disk.Some? && |s.disk.value| < SIZE_MODULUS
    requires (cmd == 0x20 || cmd == 0x21) && s.registers[2] == 0 && s.registers[6] / 16 == 0xE
    requires 512 * SectorAddress(s.registers) <= |s.disk.value| && CommandFree(es)
    ensures Command(s, cmd).Running?
    ensures var s', pos := Command(s, cmd).card, 512 * SectorAddress(s.registers);
            && (Run(s', es).Some? <==> pos + CountData(es) <= |s.disk.value|)
            && (Run(s', es).Some? ==>
                  Requesting(Run(s', es).value) == s.seek.Some? &&
                  DataRead(s', es) == s.disk.value[pos..pos + CountData(es)])
  {
    hide SectorAddress, WithBit, Run, DataRead, HasBit;
    Drifts(Command(s, cmd).card, es, 512 * SectorAddress(s.registers), s.seek.Some?);
  }
}
