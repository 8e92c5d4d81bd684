/** The binary patch format of the self-updater and the decoder that
    applies a patch to the old executable's bytes.

    A patch is the ASCII magic "MYPT", three little-endian 32-bit integers
    (old size, new size, number of changes) and then, for each change, its
    offset, old length and new length as 32-bit integers followed by the
    new bytes. */
module Patch {

  import opened Wrappers

  newtype byte = x: int | 0 <= x < 256

  /** How applying a patch fails; each case is an exception of the
      decoder. */
  datatype Error =
    | BadMagic                            // InvalidDataException: not "MYPT"
    | SizeMismatch(expected: int, found: int)  // InvalidDataException: old size differs
    | EndOfStream                         // EndOfStreamException from ReadInt32
    | BadCapacity                         // ArgumentOutOfRangeException: new MemoryStream(negative)
    | BadRange                            // MemoryStream.Write of old bytes outside the array
    | Truncated                           // MemoryStream.Write of fewer new bytes than announced

  datatype Result<T> = Ok(value: T) | Err(error: Error)

  const TwoTo31: int := 0x8000_0000
  const TwoTo32: int := 0x1_0000_0000

  predicate IsInt32(x: int) {
    -TwoTo31 <= x < TwoTo31
  }

  /** The sum or difference of two C# `int`s, which lies within 2^32 of
      zero: it wraps around to 32 bits. */
  function Wrap(x: int): (r: int)
    ensures -TwoTo32 <= x < TwoTo32 ==> IsInt32(r) && (r == x || r == x - TwoTo32 || r == x + TwoTo32)
    ensures IsInt32(x) ==> r == x
  {
    if x >= TwoTo31 then x - TwoTo32 else if x < -TwoTo31 then x + TwoTo32 else x
  }

  // ----- Reading the stream -----------------------------------------------

  /** `Encoding.ASCII`: bytes above 0x7F decode to '?'. */
  function AsciiChar(b: byte): char {
    if b < 128 then b as int as char else '?'
  }

  /** "MYPT" as bytes. */
  const MagicBytes: seq<byte> := [0x4D, 0x59, 0x50, 0x54]

  /** `Encoding.ASCII.GetString(reader.ReadBytes(4))`: at most four bytes,
      fewer at the end of the stream. */
  function MagicText(patch: seq<byte>): (r: string)
    ensures |r| == if |patch| < 4 then |patch| else 4
  {
    var n := if |patch| < 4 then |patch| else 4;
    seq(n, i requires 0 <= i < n => AsciiChar(patch[i]))
  }

  /** The signed value of four bytes, least significant first. */
  function Int32Of(b0: byte, b1: byte, b2: byte, b3: byte): (r: int)
    ensures IsInt32(r)
  {
    var u := b0 as int + 256 * (b1 as int + 256 * (b2 as int + 256 * b3 as int));
    if u >= TwoTo31 then u - TwoTo32 else u
  }

  /** `BinaryReader.ReadInt32` at position `pos` when four bytes remain. */
  function Int32At(patch: seq<byte>, pos: nat): (r: int)
    requires pos + 4 <= |patch|
    ensures IsInt32(r)
  {
    Int32Of(patch[pos], patch[pos + 1], patch[pos + 2], patch[pos + 3])
  }

  /** `BinaryReader.ReadInt32` at position `pos`; None at the end of the
      stream. */
  function ReadInt32(patch: seq<byte>, pos: nat): (r: Option<int>)
    ensures r.Some? <==> pos + 4 <= |patch|
    ensures r.Some? ==> r.value == Int32At(patch, pos)
  {
    if pos + 4 <= |patch| then Some(Int32At(patch, pos)) else None
  }

  // ----- Decoding ---------------------------------------------------------

  /** The decoder between changes: where the reader is, `currentPos`, and
      what has been written to the new stream. */
  datatype State = State(pos: nat, currentPos: int, out: seq<byte>)

  /** Where the changes begin: after the magic and three integers. */
  const ChangesStart: nat := 16

  const Start: State := State(ChangesStart, 0, [])

  /** `newStream.Write(oldBytes, from, count)`. */
  function CopyOld(oldBytes: seq<byte>, out: seq<byte>, from: int, count: int): Result<seq<byte>> {
    if from < 0 || count < 0 || from + count > |oldBytes| then Err(BadRange)
    else Ok(out + oldBytes[from..from + count])
  }

  /** `reader.ReadBytes(newLength)` followed by
      `newStream.Write(newData, 0, newLength)`: the read stops at the end of
      the patch, and writing fewer bytes than announced fails. */
  function WriteNew(patch: seq<byte>, pos: nat, currentPos: int, out: seq<byte>, newLength: int): (r: Result<State>)
    ensures r.Ok? ==> r.value.currentPos == currentPos
  {
    if newLength > 0 then
      var got := if newLength <= |patch| - pos then newLength else |patch| - pos;
      if got < newLength then Err(Truncated)
      else Ok(State(pos + got, currentPos, out + patch[pos..pos + got]))
    else Ok(State(pos, currentPos, out))
  }

  /** One change with its three integers read: copy the old bytes up to the
      offset if it lies ahead, skip `oldLength` old bytes from there, and
      write the `newLength` bytes that follow in the patch. */
  function Replace(oldBytes: seq<byte>, patch: seq<byte>, st: State, offset: int, oldLength: int, newLength: int)
    : (r: Result<State>)
    ensures IsInt32(st.currentPos) && IsInt32(offset) && IsInt32(oldLength) && r.Ok? ==> IsInt32(r.value.currentPos)
  {
    var copied :=
      if offset > st.currentPos then CopyOld(oldBytes, st.out, st.currentPos, Wrap(offset - st.currentPos))
      else Ok(st.out);
    match copied
    case Err(e) => Err(e)
    case Ok(out) =>
      var currentPos := Wrap((if offset > st.currentPos then offset else st.currentPos) + oldLength);
      WriteNew(patch, st.pos + 12, currentPos, out, newLength)
  }

  /** One iteration of the change loop: three integers, then `Replace`. */
  function ApplyChange(oldBytes: seq<byte>, patch: seq<byte>, st: State): (r: Result<State>)
    ensures IsInt32(st.currentPos) && r.Ok? ==> IsInt32(r.value.currentPos)
  {
    if st.pos + 12 > |patch| then Err(EndOfStream)
    else Replace(oldBytes, patch, st, Int32At(patch, st.pos), Int32At(patch, st.pos + 4), Int32At(patch, st.pos + 8))
  }

  /** The first `n` iterations of the change loop. */
  function ApplyChanges(oldBytes: seq<byte>, patch: seq<byte>, n: nat): (r: Result<State>)
    ensures r.Ok? ==> IsInt32(r.value.currentPos)
    decreases n
  {
    if n == 0 then Ok(Start)
    else
      match ApplyChanges(oldBytes, patch, n - 1)
      case Err(e) => Err(e)
      case Ok(st) => ApplyChange(oldBytes, patch, st)
  }

  /** A loop of `n` iterations of `step` from the start state, stopping at
      the first failure. */
  function Iterate(step: State -> Result<State>, n: nat): Result<State>
    decreases n
  {
    if n == 0 then Ok(Start)
    else
      match Iterate(step, n - 1)
      case Err(e) => Err(e)
      case Ok(st) => step(st)
  }

  function ChangeStep(oldBytes: seq<byte>, patch: seq<byte>): State -> Result<State> {
    st => ApplyChange(oldBytes, patch, st)
  }

  lemma {:induction false} ChangesIterate(oldBytes: seq<byte>, patch: seq<byte>, n: nat)
    ensures ApplyChanges(oldBytes, patch, n) == Iterate(ChangeStep(oldBytes, patch), n)
    decreases n
  {
    if n > 0 {
      ChangesIterate(oldBytes, patch, n - 1);
    }
  }

  lemma NextChange(oldBytes: seq<byte>, patch: seq<byte>, i: nat, st: State)
    requires ApplyChanges(oldBytes, patch, i) == Ok(st)
    ensures IsInt32(st.currentPos)
    ensures ApplyChanges(oldBytes, patch, i + 1) == ApplyChange(oldBytes, patch, st)
  {
  }

  /** Once an iteration fails, the loop's outcome is that failure. */
  lemma {:induction false} FailureStays(oldBytes: seq<byte>, patch: seq<byte>, i: nat, n: nat)
    requires i <= n && ApplyChanges(oldBytes, patch, i).Err?
    ensures ApplyChanges(oldBytes, patch, n) == ApplyChanges(oldBytes, patch, i)
    decreases n - i
  {
    if i < n {
      FailureStays(oldBytes, patch, i, n - 1);
    }
  }

  /** After the loop: the old bytes from `currentPos` on. */
  function Finish(oldBytes: seq<byte>, st: State): Result<seq<byte>> {
    if st.currentPos < |oldBytes| then CopyOld(oldBytes, st.out, st.currentPos, |oldBytes| - st.currentPos)
    else Ok(st.out)
  }

  /** The header: the magic, the old size that must match, the new size
      that must not be negative, and how many changes follow (none when
      negative). */
  function ChangeCount(oldBytes: seq<byte>, patch: seq<byte>): Result<nat> {
    if MagicText(patch) != "MYPT" then Err(BadMagic)
    else
      match (ReadInt32(patch, 4), ReadInt32(patch, 8))
      case (Some(oldFileSize), Some(newFileSize)) =>
        if |oldBytes| != oldFileSize then Err(SizeMismatch(oldFileSize, |oldBytes|))
        else
          (match ReadInt32(patch, 12)
           case None => Err(EndOfStream)
           case Some(changeCount) =>
             if newFileSize < 0 then Err(BadCapacity)
             else Ok(if changeCount > 0 then changeCount else 0))
      case _ => Err(EndOfStream)
  }

  /** `ApplyPatch`, from the old file's bytes and the patch's bytes to the
      new file's bytes. */
  function Patched(oldBytes: seq<byte>, patch: seq<byte>): Result<seq<byte>> {
    match ChangeCount(oldBytes, patch)
    case Err(e) => Err(e)
    case Ok(n) =>
      match ApplyChanges(oldBytes, patch, n)
      case Err(e) => Err(e)
      case Ok(st) => Finish(oldBytes, st)
  }

  // ----- The loop ---------------------------------------------------------

  /** The header reads of `ApplyPatch`, up to the allocation of the new
      stream. */
  method ReadHeader(oldBytes: seq<byte>, patch: seq<byte>) returns (r: Result<int>)
    ensures r.Err? <==> ChangeCount(oldBytes, patch).Err?
    ensures r.Err? ==> r.error == ChangeCount(oldBytes, patch).error
    ensures r.Ok? ==> ChangeCount(oldBytes, patch).value == if r.value > 0 then r.value else 0
  {
    var magic := MagicText(patch);
    if magic != "MYPT" {
      return Err(BadMagic);
    }
    if |patch| < 12 {
      return Err(EndOfStream);
    }
    var oldFileSize := ReadInt32(patch, 4).value;
    var newFileSize := ReadInt32(patch, 8).value;
    if |oldBytes| != oldFileSize {
      return Err(SizeMismatch(oldFileSize, |oldBytes|));
    }
    if |patch| < 16 {
      return Err(EndOfStream);
    }
    var changeCount := ReadInt32(patch, 12).value;
    if newFileSize < 0 {
      return Err(BadCapacity);
    }
    return Ok(changeCount);
  }

  /** The body of the change loop. */
  method ReadChange(oldBytes: seq<byte>, patch: seq<byte>, st: State) returns (r: Result<State>)
    ensures r == ApplyChange(oldBytes, patch, st)
  {
    var pos, currentPos, out := st.pos, st.currentPos, st.out;
    if pos + 12 > |patch| {
      return Err(EndOfStream);
    }
    var offset := ReadInt32(patch, pos).value;
    var oldLength := ReadInt32(patch, pos + 4).value;
    var newLength := ReadInt32(patch, pos + 8).value;
    var cur := currentPos;
    var written := out;
    if offset > cur {
      var copyLength := Wrap(offset - cur);
      if cur < 0 || copyLength < 0 || cur + copyLength > |oldBytes| {
        return Err(BadRange);
      }
      written := written + oldBytes[cur..cur + copyLength];
      cur := offset;
    }
    cur := Wrap(cur + oldLength);
    var readPos := pos + 12;
    if newLength > 0 {
      var got := if newLength <= |patch| - readPos then newLength else |patch| - readPos;
      var newData := patch[readPos..readPos + got];
      readPos := readPos + got;
      if |newData| < newLength {
        return Err(Truncated);
      }
      written := written + newData;
    }
    return Ok(State(readPos, cur, written));
  }

  method Advance(oldBytes: seq<byte>, patch: seq<byte>, i: nat, st: State) returns (r: Result<State>)
    requires ApplyChanges(oldBytes, patch, i) == Ok(st)
    ensures r == ApplyChanges(oldBytes, patch, i + 1)
  {
    NextChange(oldBytes, patch, i, st);
    r := ReadChange(oldBytes, patch, st);
  }

  /** The change loop of `ApplyPatch`, `changeCount` iterations. */
  method ApplyChangeLoop(oldBytes: seq<byte>, patch: seq<byte>, changeCount: int) returns (r: Result<State>)
    ensures r == ApplyChanges(oldBytes, patch, if changeCount > 0 then changeCount else 0)
  {
    var n: nat := if changeCount > 0 then changeCount else 0;
    var i: nat := 0;
    r := Ok(Start);
    while i < n && r.Ok?
      invariant i <= n
      invariant r == ApplyChanges(oldBytes, patch, i)
      invariant r.Err? ==> ApplyChanges(oldBytes, patch, n) == r
    {
      r := Advance(oldBytes, patch, i, r.value);
      i := i + 1;
      if r.Err? {
        FailureStays(oldBytes, patch, i, n);
      }
    }
  }

  /** `ApplyPatch`. */
  method ApplyPatch(oldBytes: seq<byte>, patch: seq<byte>) returns (r: Result<seq<byte>>)
    ensures r == Patched(oldBytes, patch)
  {
    var header := ReadHeader(oldBytes, patch);
    if header.Err? {
      return Err(header.error);
    }
    var changes := ApplyChangeLoop(oldBytes, patch, header.value);
    if changes.Err? {
      return Err(changes.error);
    }
    r := CopyRest(oldBytes, changes.value);
  }

  /** After the change loop: the old bytes from `currentPos` to the end. */
  method CopyRest(oldBytes: seq<byte>, st: State) returns (r: Result<seq<byte>>)
    ensures r == Finish(oldBytes, st)
  {
    var currentPos, out := st.currentPos, st.out;
    if currentPos < |oldBytes| {
      var remaining := |oldBytes| - currentPos;
      if currentPos < 0 {
        return Err(BadRange);
      }
      out := out + oldBytes[currentPos..currentPos + remaining];
    }
    return Ok(out);
  }

  // ----- The errors -------------------------------------------------------

  /** The decoded magic is "MYPT" exactly when the patch starts with its
      four bytes. */
  lemma MagicIff(patch: seq<byte>)
    ensures MagicText(patch) == "MYPT" <==> |patch| >= 4 && patch[..4] == MagicBytes
  {
    var m := MagicText(patch);
    if m == "MYPT" {
      assert |patch| >= 4;
      forall i | 0 <= i < 4 ensures patch[i] == MagicBytes[i] {
        assert m[i] == AsciiChar(patch[i]) && m[i] != '?';
      }
    }
    if |patch| >= 4 && patch[..4] == MagicBytes {
      forall i | 0 <= i < 4 ensures m[i] == "MYPT"[i] {
        assert patch[i] == patch[..4][i];
      }
    }
  }

  /** A patch fails as malformed exactly when it does not start with the
      magic bytes. */
  lemma BadMagicIff(oldBytes: seq<byte>, patch: seq<byte>)
    ensures Patched(oldBytes, patch) == Err(BadMagic) <==> !(|patch| >= 4 && patch[..4] == MagicBytes)
  {
    MagicIff(patch);
    if MagicText(patch) == "MYPT" {
      NoBadMagicLater(oldBytes, patch);
    }
  }

  lemma NoBadMagicLater(oldBytes: seq<byte>, patch: seq<byte>)
    requires MagicText(patch) == "MYPT"
    ensures Patched(oldBytes, patch) != Err(BadMagic)
  {
    if |patch| >= 16 && ReadInt32(patch, 4).value == |oldBytes| && ReadInt32(patch, 8).value >= 0 {
      var c := ReadInt32(patch, 12).value;
      var n: nat := if c > 0 then c else 0;
      ChangesNoBadMagic(oldBytes, patch, n);
    }
  }

  lemma {:induction false} ChangesNoBadMagic(oldBytes: seq<byte>, patch: seq<byte>, n: nat)
    ensures ApplyChanges(oldBytes, patch, n) != Err(BadMagic)
    ensures ApplyChanges(oldBytes, patch, n).Ok? ==> Finish(oldBytes, ApplyChanges(oldBytes, patch, n).value) != Err(BadMagic)
    decreases n
  {
    if n > 0 {
      ChangesNoBadMagic(oldBytes, patch, n - 1);
    }
  }

  /** A complete header whose old size is not the old file's length fails
      with both sizes. */
  lemma SizeMismatchFails(oldBytes: seq<byte>, patch: seq<byte>)
    requires |patch| >= 12 && patch[..4] == MagicBytes
    requires ReadInt32(patch, 4).value != |oldBytes|
    ensures Patched(oldBytes, patch) == Err(SizeMismatch(ReadInt32(patch, 4).value, |oldBytes|))
  {
    MagicIff(patch);
  }

  /** With no changes the new file is the old one. */
  lemma NoChangesIdentity(oldBytes: seq<byte>, patch: seq<byte>)
    requires |patch| >= 16 && patch[..4] == MagicBytes
    requires ReadInt32(patch, 4).value == |oldBytes| && ReadInt32(patch, 8).value >= 0
    requires ReadInt32(patch, 12).value <= 0
    ensures Patched(oldBytes, patch) == Ok(oldBytes)
  {
    MagicIff(patch);
    assert ChangeCount(oldBytes, patch) == Ok(0);
    assert ApplyChanges(oldBytes, patch, 0) == Ok(Start);
    assert [] + oldBytes[0..|oldBytes|] == oldBytes;
  }

  /** A change at or behind `currentPos` copies nothing: its old bytes are
      skipped from `currentPos`, not from its offset. */
  lemma ChangeBehind(oldBytes: seq<byte>, patch: seq<byte>, st: State)
    requires st.pos + 12 <= |patch|
    requires ReadInt32(patch, st.pos).value <= st.currentPos
    ensures var oldLength := ReadInt32(patch, st.pos + 4).value;
      var newLength := ReadInt32(patch, st.pos + 8).value;
      var r := ApplyChange(oldBytes, patch, st);
      && (newLength <= 0 ==> r == Ok(State(st.pos + 12, Wrap(st.currentPos + oldLength), st.out)))
      && (0 < newLength <= |patch| - st.pos - 12 ==>
            r == Ok(State(st.pos + 12 + newLength, Wrap(st.currentPos + oldLength),
                          st.out + patch[st.pos + 12..st.pos + 12 + newLength])))
      && (newLength > |patch| - st.pos - 12 ==> r == Err(Truncated))
  {
  }

  // ----- A reference: the well-formed patch -------------------------------

  /** One change: replace `oldLength` bytes at `offset` by `data`. */
  datatype Change = Change(offset: nat, oldLength: nat, data: seq<byte>)

  /** Where the last change ends in the old bytes (0 without changes). */
  function End(cs: seq<Change>): nat {
    if cs == [] then 0 else cs[|cs| - 1].offset + cs[|cs| - 1].oldLength
  }

  /** Changes in ascending order that do not overlap, within the old bytes
      and within 32-bit ranges. */
  ghost predicate WellFormed(oldBytes: seq<byte>, cs: seq<Change>) {
    && |oldBytes| < TwoTo31
    && (forall i | 0 <= i < |cs| :: |cs[i].data| < TwoTo31 && cs[i].offset + cs[i].oldLength <= |oldBytes|)
    && (forall i, j | 0 <= i < j < |cs| :: cs[i].offset + cs[i].oldLength <= cs[j].offset)
  }

  /** The new bytes up to the end of the last change: the old bytes between
      changes and each change's data. */
  function Prefix(oldBytes: seq<byte>, cs: seq<Change>): seq<byte>
    requires WellFormed(oldBytes, cs)
    decreases |cs|
  {
    if cs == [] then []
    else
      var init := cs[..|cs| - 1];
      var c := cs[|cs| - 1];
      WellFormedPrefix(oldBytes, cs, |cs| - 1);
      WellFormedEnd(oldBytes, cs);
      Prefix(oldBytes, init) + oldBytes[End(init)..c.offset] + c.data
  }

  lemma WellFormedEnd(oldBytes: seq<byte>, cs: seq<Change>)
    requires WellFormed(oldBytes, cs) && cs != []
    ensures End(cs[..|cs| - 1]) <= cs[|cs| - 1].offset
    ensures End(cs) <= |oldBytes|
  {
    var n := |cs| - 1;
    if n > 0 {
      assert cs[..n][n - 1] == cs[n - 1];
    } else {
      assert cs[..n] == [];
    }
  }

  /** The new file a well-formed patch describes. */
  function Splice(oldBytes: seq<byte>, cs: seq<Change>): seq<byte>
    requires WellFormed(oldBytes, cs)
  {
    assert End(cs) <= |oldBytes| by {
      if cs != [] { WellFormedEnd(oldBytes, cs); }
    }
    Prefix(oldBytes, cs) + oldBytes[End(cs)..]
  }

  /** What the changes add to the length. */
  function Growth(cs: seq<Change>): int
    decreases |cs|
  {
    if cs == [] then 0 else Growth(cs[..|cs| - 1]) + |cs[|cs| - 1].data| - cs[|cs| - 1].oldLength
  }

  lemma {:induction false} PrefixLength(oldBytes: seq<byte>, cs: seq<Change>)
    requires WellFormed(oldBytes, cs)
    ensures |Prefix(oldBytes, cs)| == End(cs) + Growth(cs)
    decreases |cs|
  {
    if cs != [] {
      var init := cs[..|cs| - 1];
      WellFormedPrefix(oldBytes, cs, |cs| - 1);
      WellFormedEnd(oldBytes, cs);
      PrefixLength(oldBytes, init);
    }
  }

  /** The new file is as long as the old one plus, for each change, its new
      length minus its old length. */
  lemma SpliceLength(oldBytes: seq<byte>, cs: seq<Change>)
    requires WellFormed(oldBytes, cs)
    ensures |Splice(oldBytes, cs)| == |oldBytes| + Growth(cs)
  {
    PrefixLength(oldBytes, cs);
    if cs != [] { WellFormedEnd(oldBytes, cs); }
  }

  // ----- Encoding, and the decoder against the reference -----------------

  /** Four little-endian bytes of a non-negative 32-bit integer, as
      `BinaryWriter.Write(int)` writes them. */
  function Le32(x: int): (r: seq<byte>)
    requires 0 <= x < TwoTo31
    ensures |r| == 4
  {
    var x1 := x / 256;
    var x2 := x1 / 256;
    [(x % 256) as byte, (x1 % 256) as byte, (x2 % 256) as byte, (x2 / 256) as byte]
  }

  lemma Le32Reads(x: int)
    requires 0 <= x < TwoTo31
    ensures var b := Le32(x); Int32Of(b[0], b[1], b[2], b[3]) == x
  {
    var x1 := x / 256;
    var x2 := x1 / 256;
    assert x == x % 256 + 256 * x1;
    assert x1 == x1 % 256 + 256 * x2;
    assert x2 == x2 % 256 + 256 * (x2 / 256);
  }

  ghost predicate InRange(cs: seq<Change>) {
    forall i | 0 <= i < |cs| :: cs[i].offset < TwoTo31 && cs[i].oldLength < TwoTo31 && |cs[i].data| < TwoTo31
  }

  function EncodeChange(c: Change): (r: seq<byte>)
    requires c.offset < TwoTo31 && c.oldLength < TwoTo31 && |c.data| < TwoTo31
    ensures |r| == 12 + |c.data|
  {
    Le32(c.offset) + Le32(c.oldLength) + Le32(|c.data|) + c.data
  }

  function EncodeChanges(cs: seq<Change>): seq<byte>
    requires InRange(cs)
    decreases |cs|
  {
    if cs == [] then [] else EncodeChanges(cs[..|cs| - 1]) + EncodeChange(cs[|cs| - 1])
  }

  /** The patch file for a list of changes. */
  function Encode(oldSize: int, newSize: int, cs: seq<Change>): seq<byte>
    requires 0 <= oldSize < TwoTo31 && 0 <= newSize < TwoTo31 && |cs| < TwoTo31 && InRange(cs)
  {
    MagicBytes + Le32(oldSize) + Le32(newSize) + Le32(|cs|) + EncodeChanges(cs)
  }

  /** Reading an integer where one was written. */
  lemma ReadWritten(patch: seq<byte>, pos: nat, x: int)
    requires 0 <= x < TwoTo31 && pos + 4 <= |patch|
    requires forall i | 0 <= i < 4 :: patch[pos + i] == Le32(x)[i]
    ensures ReadInt32(patch, pos) == Some(x)
  {
    Le32Reads(x);
    var b := Le32(x);
    assert patch[pos] == b[0] && patch[pos + 1] == b[1] && patch[pos + 2] == b[2] && patch[pos + 3] == b[3];
  }

  lemma InRangePrefix(cs: seq<Change>, k: nat)
    requires InRange(cs) && k <= |cs|
    ensures InRange(cs[..k])
  {
  }

  lemma WellFormedPrefix(oldBytes: seq<byte>, cs: seq<Change>, k: nat)
    requires WellFormed(oldBytes, cs) && k <= |cs|
    ensures WellFormed(oldBytes, cs[..k])
  {
  }

  /** The encoded changes before change `k` are followed by change `k`'s
      own encoding. */
  lemma {:induction false} EncodePrefix(cs: seq<Change>, k: nat)
    requires InRange(cs) && k < |cs|
    ensures InRange(cs[..k]) && InRange(cs[..k + 1])
    ensures EncodeChanges(cs[..k + 1]) == EncodeChanges(cs[..k]) + EncodeChange(cs[k])
    ensures |EncodeChanges(cs[..k + 1])| <= |EncodeChanges(cs)|
    ensures EncodeChanges(cs)[..|EncodeChanges(cs[..k + 1])|] == EncodeChanges(cs[..k + 1])
    decreases |cs|
  {
    InRangePrefix(cs, k);
    InRangePrefix(cs, k + 1);
    assert cs[..k + 1][..k] == cs[..k];
    if k + 1 < |cs| {
      var init := cs[..|cs| - 1];
      InRangePrefix(cs, |cs| - 1);
      EncodePrefix(init, k);
      assert init[..k] == cs[..k] && init[..k + 1] == cs[..k + 1];
    } else {
      assert cs[..k + 1] == cs;
    }
  }

  /** The bytes `w` occur in the patch at `pos`. */
  ghost predicate At(patch: seq<byte>, pos: nat, w: seq<byte>) {
    pos + |w| <= |patch| && forall k | 0 <= k < |w| :: patch[pos + k] == w[k]
  }

  /** Reading an integer written inside a window of the patch. */
  lemma ReadWithin(patch: seq<byte>, pos: nat, w: seq<byte>, k: nat, x: int)
    requires At(patch, pos, w)
    requires 0 <= x < TwoTo31 && k + 4 <= |w| && forall t | 0 <= t < 4 :: w[k + t] == Le32(x)[t]
    ensures ReadInt32(patch, pos + k) == Some(x)
  {
    forall t | 0 <= t < 4 ensures patch[pos + k + t] == Le32(x)[t] {
      assert patch[pos + (k + t)] == w[k + t];
    }
    ReadWritten(patch, pos + k, x);
  }

  /** The three integers of a change written at `pos`. */
  lemma ChangeReads(patch: seq<byte>, pos: nat, c: Change)
    requires c.offset < TwoTo31 && c.oldLength < TwoTo31 && |c.data| < TwoTo31
    requires At(patch, pos, EncodeChange(c))
    ensures pos + 12 + |c.data| <= |patch|
    ensures Int32At(patch, pos) == c.offset && Int32At(patch, pos + 4) == c.oldLength
    ensures Int32At(patch, pos + 8) == |c.data|
    ensures patch[pos + 12..pos + 12 + |c.data|] == c.data
  {
    var enc := EncodeChange(c);
    ReadWithin(patch, pos, enc, 0, c.offset);
    ReadWithin(patch, pos, enc, 4, c.oldLength);
    ReadWithin(patch, pos, enc, 8, |c.data|);
    forall i | 0 <= i < |c.data| ensures patch[pos + 12 + i] == c.data[i] {
      assert patch[pos + (12 + i)] == enc[12 + i];
    }
  }

  /** `Replace` on a change at or after `currentPos` and within the old
      bytes, with its data following in the patch. */
  lemma ReplaceAhead(oldBytes: seq<byte>, patch: seq<byte>, st: State, c: Change)
    requires c.offset < TwoTo31 && c.oldLength < TwoTo31 && |c.data| < TwoTo31
    requires 0 <= st.currentPos <= c.offset && c.offset + c.oldLength <= |oldBytes| < TwoTo31
    requires st.pos + 12 + |c.data| <= |patch| && patch[st.pos + 12..st.pos + 12 + |c.data|] == c.data
    ensures Replace(oldBytes, patch, st, c.offset, c.oldLength, |c.data|)
      == Ok(State(st.pos + 12 + |c.data|, c.offset + c.oldLength, st.out + oldBytes[st.currentPos..c.offset] + c.data))
  {
    var copied := oldBytes[st.currentPos..c.offset];
    if c.offset <= st.currentPos {
      assert copied == [];
      assert st.out + copied == st.out;
    } else {
      assert Wrap(c.offset - st.currentPos) == c.offset - st.currentPos;
      assert CopyOld(oldBytes, st.out, st.currentPos, c.offset - st.currentPos) == Ok(st.out + copied);
    }
    if |c.data| == 0 {
      assert st.out + copied + c.data == st.out + copied;
    }
  }

  /** A change written at the reader's position, at or after `currentPos`
      and within the old bytes, is decoded as that change. */
  lemma StepAt(oldBytes: seq<byte>, patch: seq<byte>, st: State, c: Change)
    requires c.offset < TwoTo31 && c.oldLength < TwoTo31 && |c.data| < TwoTo31
    requires 0 <= st.currentPos <= c.offset && c.offset + c.oldLength <= |oldBytes| < TwoTo31
    requires At(patch, st.pos, EncodeChange(c))
    ensures ApplyChange(oldBytes, patch, st)
      == Ok(State(st.pos + 12 + |c.data|, c.offset + c.oldLength, st.out + oldBytes[st.currentPos..c.offset] + c.data))
  {
    ChangeReads(patch, st.pos, c);
    ReplaceAhead(oldBytes, patch, st, c);
  }

  /** The encoding of change `j` sits right after the encodings of the
      changes before it. */
  lemma EncodingAt(patch: seq<byte>, cs: seq<Change>, k: nat)
    requires InRange(cs) && 0 < k <= |cs|
    requires ChangesStart <= |patch| && patch[ChangesStart..] == EncodeChanges(cs)
    ensures InRange(cs[..k - 1]) && InRange(cs[..k])
    ensures At(patch, ChangesStart + |EncodeChanges(cs[..k - 1])|, EncodeChange(cs[k - 1]))
    ensures |EncodeChanges(cs[..k])| == |EncodeChanges(cs[..k - 1])| + 12 + |cs[k - 1].data|
  {
    var j := k - 1;
    EncodePrefix(cs, j);
    assert j + 1 == k;
    WindowAfter(patch, EncodeChanges(cs), EncodeChanges(cs[..j]), EncodeChange(cs[j]));
  }

  /** Bytes that start with `before + enc` hold `enc` right after
      `before`. */
  lemma WindowAfter(patch: seq<byte>, all: seq<byte>, before: seq<byte>, enc: seq<byte>)
    requires ChangesStart <= |patch| && patch[ChangesStart..] == all
    requires |before| + |enc| <= |all| && all[..|before| + |enc|] == before + enc
    ensures At(patch, ChangesStart + |before|, enc)
  {
    forall k | 0 <= k < |enc| ensures patch[ChangesStart + |before| + k] == enc[k] {
      assert patch[ChangesStart + (|before| + k)] == all[|before| + k];
      assert all[|before| + k] == all[..|before| + |enc|][|before| + k];
    }
  }

  /** The reference's prefix grows by the old bytes up to change `j` and
      change `j`'s data. */
  lemma PrefixStep(oldBytes: seq<byte>, cs: seq<Change>, k: nat)
    requires WellFormed(oldBytes, cs) && 0 < k <= |cs|
    ensures WellFormed(oldBytes, cs[..k - 1]) && WellFormed(oldBytes, cs[..k])
    ensures End(cs[..k - 1]) <= cs[k - 1].offset && End(cs[..k]) == cs[k - 1].offset + cs[k - 1].oldLength
    ensures Prefix(oldBytes, cs[..k])
      == Prefix(oldBytes, cs[..k - 1]) + oldBytes[End(cs[..k - 1])..cs[k - 1].offset] + cs[k - 1].data
  {
    WellFormedPrefix(oldBytes, cs, k - 1);
    WellFormedPrefix(oldBytes, cs, k);
    assert cs[..k][..k - 1] == cs[..k - 1];
    assert cs[..k][k - 1] == cs[k - 1];
    WellFormedEnd(oldBytes, cs[..k]);
  }

  /** What decoding one change should do: with the change written at the
      reader's position, copy the old bytes up to it, skip its old bytes,
      and write its data. */
  ghost function Decoded(oldBytes: seq<byte>, st: State, c: Change): State
    requires 0 <= st.currentPos <= c.offset <= |oldBytes|
  {
    State(st.pos + 12 + |c.data|, c.offset + c.oldLength, st.out + oldBytes[st.currentPos..c.offset] + c.data)
  }

  /** `step` decodes each of the changes `cs` written in `patch`. */
  ghost predicate DecodesEach(oldBytes: seq<byte>, patch: seq<byte>, cs: seq<Change>, step: State -> Result<State>)
    requires InRange(cs)
  {
    forall st: State, j: nat |
      j < |cs| && 0 <= st.currentPos <= cs[j].offset <= |oldBytes| && At(patch, st.pos, EncodeChange(cs[j]))
      :: step(st) == Ok(Decoded(oldBytes, st, cs[j]))
  }

  lemma ChangeStepDecodes(oldBytes: seq<byte>, patch: seq<byte>, cs: seq<Change>)
    requires WellFormed(oldBytes, cs) && InRange(cs)
    ensures DecodesEach(oldBytes, patch, cs, ChangeStep(oldBytes, patch))
  {
    forall st: State, j: nat |
      j < |cs| && 0 <= st.currentPos <= cs[j].offset <= |oldBytes| && At(patch, st.pos, EncodeChange(cs[j]))
      ensures ChangeStep(oldBytes, patch)(st) == Ok(Decoded(oldBytes, st, cs[j]))
    {
      StepAt(oldBytes, patch, st, cs[j]);
    }
  }

  /** After `k` changes of an encoded patch, the decoder's reader stands at
      change `k`, `currentPos` is the end of change `k - 1`, and it has
      written the reference's prefix. */
  lemma {:induction false} DecodeChanges(oldBytes: seq<byte>, patch: seq<byte>, cs: seq<Change>,
                                         step: State -> Result<State>, k: nat)
    requires WellFormed(oldBytes, cs) && InRange(cs)
    requires ChangesStart <= |patch| && patch[ChangesStart..] == EncodeChanges(cs)
    requires DecodesEach(oldBytes, patch, cs, step)
    requires k <= |cs|
    ensures Iterate(step, k) == Ok(Expected(oldBytes, cs, k))
    decreases k
  {
    if k == 0 {
      assert cs[..0] == [];
    } else {
      DecodeChanges(oldBytes, patch, cs, step, k - 1);
      var st := Expected(oldBytes, cs, k - 1);
      assert step(st) == Ok(Expected(oldBytes, cs, k)) by {
        ExpectedNext(oldBytes, patch, cs, k);
        ExpectedStep(oldBytes, cs, k);
        assert step(st) == Ok(Decoded(oldBytes, st, cs[k - 1]));
      }
    }
  }

  /** The decoder's state after `k` changes of an encoded patch: the reader
      stands at change `k`, `currentPos` is the end of change `k - 1`, and
      it has written the reference's prefix. */
  ghost function Expected(oldBytes: seq<byte>, cs: seq<Change>, k: nat): State
    requires WellFormed(oldBytes, cs) && InRange(cs) && k <= |cs|
  {
    InRangePrefix(cs, k);
    WellFormedPrefix(oldBytes, cs, k);
    State(ChangesStart + |EncodeChanges(cs[..k])|, End(cs[..k]), Prefix(oldBytes, cs[..k]))
  }

  /** Change `k - 1` is written where the expected state's reader stands,
      and decoding it gives the next expected state. */
  lemma ExpectedNext(oldBytes: seq<byte>, patch: seq<byte>, cs: seq<Change>, k: nat)
    requires WellFormed(oldBytes, cs) && InRange(cs)
    requires ChangesStart <= |patch| && patch[ChangesStart..] == EncodeChanges(cs)
    requires 0 < k <= |cs|
    ensures var st := Expected(oldBytes, cs, k - 1);
      var c := cs[k - 1];
      && 0 <= st.currentPos <= c.offset <= |oldBytes|
      && At(patch, st.pos, EncodeChange(c))
  {
    EncodingAt(patch, cs, k);
    PrefixStep(oldBytes, cs, k);
  }

  /** Decoding change `k - 1` from the expected state after `k - 1` changes
      gives the expected state after `k`. */
  lemma ExpectedStep(oldBytes: seq<byte>, cs: seq<Change>, k: nat)
    requires WellFormed(oldBytes, cs) && InRange(cs)
    requires 0 < k <= |cs|
    ensures var st := Expected(oldBytes, cs, k - 1);
      0 <= st.currentPos <= cs[k - 1].offset <= |oldBytes|
      && Expected(oldBytes, cs, k) == Decoded(oldBytes, st, cs[k - 1])
  {
    EncodePrefix(cs, k - 1);
    PrefixStep(oldBytes, cs, k);
  }

  /** The decoder applied to an encoded well-formed patch gives the
      reference's new file, whatever new size the header announces. */
  lemma PatchRoundTrip(oldBytes: seq<byte>, newSize: int, cs: seq<Change>)
    requires WellFormed(oldBytes, cs) && InRange(cs) && 0 <= newSize < TwoTo31 && |cs| < TwoTo31
    ensures Patched(oldBytes, Encode(|oldBytes|, newSize, cs)) == Ok(Splice(oldBytes, cs))
  {
    var patch := Encode(|oldBytes|, newSize, cs);
    var head := MagicBytes + Le32(|oldBytes|) + Le32(newSize) + Le32(|cs|);
    assert patch == head + EncodeChanges(cs);
    HeaderReads(oldBytes, newSize, cs, head, patch);
    assert patch[ChangesStart..] == EncodeChanges(cs);
    ChangeStepDecodes(oldBytes, patch, cs);
    DecodeChanges(oldBytes, patch, cs, ChangeStep(oldBytes, patch), |cs|);
    ChangesIterate(oldBytes, patch, |cs|);
    assert cs[..|cs|] == cs;
    FinishAtEnd(oldBytes, cs, Expected(oldBytes, cs, |cs|));
  }

  lemma FinishAtEnd(oldBytes: seq<byte>, cs: seq<Change>, st: State)
    requires WellFormed(oldBytes, cs)
    requires st.currentPos == End(cs) && st.out == Prefix(oldBytes, cs)
    ensures Finish(oldBytes, st) == Ok(Splice(oldBytes, cs))
  {
    if cs != [] { WellFormedEnd(oldBytes, cs); }
    var e := End(cs);
    var rest := oldBytes[e..];
    assert Splice(oldBytes, cs) == st.out + rest;
    if e < |oldBytes| {
      assert oldBytes[e..e + (|oldBytes| - e)] == rest;
      assert Finish(oldBytes, st) == CopyOld(oldBytes, st.out, e, |oldBytes| - e);
    } else {
      assert rest == [];
      assert st.out + rest == st.out;
    }
  }

  lemma HeaderReads(oldBytes: seq<byte>, newSize: int, cs: seq<Change>, head: seq<byte>, patch: seq<byte>)
    requires |oldBytes| < TwoTo31 && 0 <= newSize < TwoTo31 && |cs| < TwoTo31
    requires head == MagicBytes + Le32(|oldBytes|) + Le32(newSize) + Le32(|cs|)
    requires |head| <= |patch| && patch[..|head|] == head
    ensures ChangeCount(oldBytes, patch) == Ok(|cs|)
  {
    assert At(patch, 0, head) by {
      forall k | 0 <= k < |head| ensures patch[k] == head[k] {
        assert patch[k] == patch[..|head|][k];
      }
    }
    assert patch[..4] == MagicBytes by {
      assert patch[..4] == patch[..|head|][..4] == head[..4];
    }
    MagicIff(patch);
    ReadWithin(patch, 0, head, 4, |oldBytes|);
    ReadWithin(patch, 0, head, 8, newSize);
    ReadWithin(patch, 0, head, 12, |cs|);
  }

  /** The new size in the header only sizes the output buffer: it does not
      change the result. */
  lemma NewSizeIgnored(oldBytes: seq<byte>, a: int, b: int, cs: seq<Change>)
    requires WellFormed(oldBytes, cs) && InRange(cs) && |cs| < TwoTo31
    requires 0 <= a < TwoTo31 && 0 <= b < TwoTo31
    ensures Patched(oldBytes, Encode(|oldBytes|, a, cs)) == Patched(oldBytes, Encode(|oldBytes|, b, cs))
  {
    PatchRoundTrip(oldBytes, a, cs);
    PatchRoundTrip(oldBytes, b, cs);
  }

  /** A well-formed patch succeeds with an output as long as the old bytes
      plus, for each change, its new length minus its old length. */
  lemma PatchedLength(oldBytes: seq<byte>, newSize: int, cs: seq<Change>)
    requires WellFormed(oldBytes, cs) && InRange(cs) && 0 <= newSize < TwoTo31 && |cs| < TwoTo31
    ensures Patched(oldBytes, Encode(|oldBytes|, newSize, cs)).Ok?
    ensures |Patched(oldBytes, Encode(|oldBytes|, newSize, cs)).value| == |oldBytes| + Growth(cs)
  {
    PatchRoundTrip(oldBytes, newSize, cs);
    SpliceLength(oldBytes, cs);
  }
}
