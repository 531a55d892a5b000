/**
  A packed form of commands and responses, field by field in the order of commands/diarkis/commands.h,
  with every sequence closed by a mark of its own.

  It stands in for MessagePack to show that what is taken of a packed form elsewhere can be met: it loses
  nothing, marks its own end, and keeps small commands small.
 */
module Packing {
  import opened Basics
  import opened Framing
  import opened Commands
  import opened Replay
  import R = Replica
  import CX = ClusterExact
  import S = Session

  /** A value read from the front of the bytes, and what follows it. */
  datatype Read<T> = Read(value: T, rest: Bytes)

  /* ---------- Sequences ---------- */

  function PackText(s: string): Bytes
  {
    if s == [] then [0] else PackChar(s[0]) + PackText(s[1..])
  }

  function PackChar(c: char): (b: Bytes)
    ensures |b| == 4
  {
    var n := c as int;
    [1, n / 0x1_0000, n / 0x100 % 0x100, n % 0x100]
  }

  function UnpackText(b: Bytes): Option<Read<string>>
  {
    if b == [] then None
    else if b[0] == 0 then Some(Read([], b[1..]))
    else if |b| < 4 then None
    else
      var n := b[1] as int * 0x1_0000 + b[2] as int * 0x100 + b[3] as int;
      if 0xD800 <= n < 0xE000 || 0x11_0000 <= n then None
      else
        match UnpackText(b[4..])
        case None => None
        case Some(r) => Some(Read([n as char] + r.value, r.rest))
  }

  function PackBlob(s: Bytes): Bytes
  {
    if s == [] then [0] else [1, s[0]] + PackBlob(s[1..])
  }

  function UnpackBlob(b: Bytes): Option<Read<Bytes>>
  {
    if b == [] then None
    else if b[0] == 0 then Some(Read([], b[1..]))
    else if |b| < 2 then None
    else
      match UnpackBlob(b[2..])
      case None => None
      case Some(r) => Some(Read([b[1]] + r.value, r.rest))
  }

  function PackTexts(s: seq<string>): Bytes
  {
    if s == [] then [0] else [1] + (PackText(s[0]) + PackTexts(s[1..]))
  }

  function UnpackTexts(b: Bytes): Option<Read<seq<string>>>
    decreases |b|
  {
    if b == [] then None
    else if b[0] == 0 then Some(Read([], b[1..]))
    else
      match UnpackText(b[1..])
      case None => None
      case Some(first) =>
        if |first.rest| >= |b| then None
        else
          match UnpackTexts(first.rest)
          case None => None
          case Some(r) => Some(Read([first.value] + r.value, r.rest))
  }

  lemma {:induction false} TextReadBack(s: string, rest: Bytes)
    ensures UnpackText(PackText(s) + rest) == Some(Read(s, rest))
  {
    var b := PackText(s) + rest;
    if s == [] {
      assert b[1..] == rest;
    } else {
      TextReadBack(s[1..], rest);
      assert b == PackChar(s[0]) + (PackText(s[1..]) + rest);
      CharReadBack(s[0], PackText(s[1..]) + rest, s[1..], rest);
      assert [s[0]] + s[1..] == s;
    }
  }

  lemma CharReadBack(c: char, b: Bytes, others: string, rest: Bytes)
    requires UnpackText(b) == Some(Read(others, rest))
    ensures UnpackText(PackChar(c) + b) == Some(Read([c] + others, rest))
  {
    assert (PackChar(c) + b)[4..] == b;
  }

  lemma {:induction false} BlobReadBack(s: Bytes, rest: Bytes)
    ensures UnpackBlob(PackBlob(s) + rest) == Some(Read(s, rest))
  {
    var b := PackBlob(s) + rest;
    if s == [] {
      assert b[1..] == rest;
    } else {
      BlobReadBack(s[1..], rest);
      assert b[2..] == PackBlob(s[1..]) + rest;
      assert [s[0]] + s[1..] == s;
    }
  }

  lemma {:induction false} TextsReadBack(s: seq<string>, rest: Bytes)
    ensures UnpackTexts(PackTexts(s) + rest) == Some(Read(s, rest))
  {
    if s == [] {
      assert (PackTexts(s) + rest)[1..] == rest;
    } else {
      TextsReadBack(s[1..], rest);
      Regroup([1], PackText(s[0]), PackTexts(s[1..]), rest);
      FirstText(s[0], PackTexts(s[1..]) + rest, s[1..], rest);
      assert [s[0]] + s[1..] == s;
    }
  }

  lemma Regroup(w: Bytes, x: Bytes, y: Bytes, z: Bytes)
    ensures (w + (x + y)) + z == w + (x + (y + z))
  {
  }

  lemma FirstText(first: string, b: Bytes, others: seq<string>, rest: Bytes)
    requires UnpackTexts(b) == Some(Read(others, rest))
    ensures UnpackTexts([1] + (PackText(first) + b)) == Some(Read([first] + others, rest))
  {
    var whole := [1] + (PackText(first) + b);
    assert whole[1..] == PackText(first) + b;
    TextReadBack(first, b);
  }

  lemma {:induction false} TextLength(s: string)
    ensures |PackText(s)| == 4 * |s| + 1
  {
    if s != [] {
      TextLength(s[1..]);
    }
  }

  lemma {:induction false} BlobLength(s: Bytes)
    ensures |PackBlob(s)| == 2 * |s| + 1
  {
    if s != [] {
      BlobLength(s[1..]);
    }
  }

  /** Reading takes exactly the bytes that the value packs to. */
  lemma {:induction false} TextTakes(b: Bytes)
    ensures var r := UnpackText(b); r.Some? ==> |b| == |PackText(r.value.value)| + |r.value.rest|
  {
    var r := UnpackText(b);
    if r.Some? && b[0] != 0 {
      TextTakes(b[4..]);
      assert r.value.value[1..] == UnpackText(b[4..]).value.value;
    }
  }

  lemma {:induction false} BlobTakes(b: Bytes)
    ensures var r := UnpackBlob(b); r.Some? ==> |b| == |PackBlob(r.value.value)| + |r.value.rest|
  {
    var r := UnpackBlob(b);
    if r.Some? && b[0] != 0 {
      BlobTakes(b[2..]);
      assert r.value.value[1..] == UnpackBlob(b[2..]).value.value;
    }
  }

  /* ---------- Commands ---------- */

  /** The value of the type field. */
  function CodeOfKind(k: Kind): Byte
  {
    match k
    case CreateFile => 1
    case ReadFile => 2
    case WriteFile => 3
    case AppendFile => 4
    case DeleteFile => 5
    case CreateDir => 6
    case ListDir => 7
    case DeleteDir => 8
    case RenameEntry => 9
    case Unknown(code) => code
  }

  /** Every value of the type field has one kind. */
  function KindOfCode(n: Byte): (k: Kind)
    ensures CodeOfKind(k) == n
    ensures forall k' :: CodeOfKind(k') == n ==> k' == k
  {
    match n
    case 1 => CreateFile
    case 2 => ReadFile
    case 3 => WriteFile
    case 4 => AppendFile
    case 5 => DeleteFile
    case 6 => CreateDir
    case 7 => ListDir
    case 8 => DeleteDir
    case 9 => RenameEntry
    case _ => Unknown(n)
  }

  function PackCommand(c: Command): Bytes
  {
    [CodeOfKind(c.kind)] + (PackText(c.path) + (PackText(c.newPath) + PackBlob(c.contents)))
  }

  function UnpackCommand(b: Bytes): Option<Command>
  {
    if b == [] then None
    else
      var path := UnpackText(b[1..]);
      if path.None? then None
      else
        var newPath := UnpackText(path.value.rest);
        if newPath.None? then None
        else
          var contents := UnpackBlob(newPath.value.rest);
          if contents.None? || contents.value.rest != [] then None
          else Some(Command(KindOfCode(b[0]), path.value.value, newPath.value.value, contents.value.value))
  }

  lemma CommandReadBack(c: Command)
    ensures UnpackCommand(PackCommand(c)) == Some(c)
  {
    var b, last := PackCommand(c), PackBlob(c.contents);
    assert b[1..] == PackText(c.path) + (PackText(c.newPath) + last);
    TextReadBack(c.path, PackText(c.newPath) + last);
    TextReadBack(c.newPath, last);
    assert last + [] == last;
    BlobReadBack(c.contents, []);
  }

  lemma CommandTakes(b: Bytes)
    ensures UnpackCommand(b).Some? ==> |b| == |PackCommand(UnpackCommand(b).value)|
  {
    if UnpackCommand(b).Some? {
      TextTakes(b[1..]);
      var rest := UnpackText(b[1..]).value.rest;
      TextTakes(rest);
      BlobTakes(UnpackText(rest).value.rest);
    }
  }

  lemma CommandLength(c: Command)
    ensures |PackCommand(c)| == 4 * (|c.path| + |c.newPath| + 1) + 2 * |c.contents|
  {
    TextLength(c.path);
    TextLength(c.newPath);
    BlobLength(c.contents);
  }

  /* ---------- Responses ---------- */

  function PackResponse(r: S.Response): Bytes
  {
    [if r.success then 1 else 0] + (PackText(r.error) + (PackBlob(r.data) + PackTexts(r.entries)))
  }

  function UnpackResponse(b: Bytes): Option<S.Response>
  {
    if b == [] then None
    else
      var error := UnpackText(b[1..]);
      if error.None? then None
      else
        var data := UnpackBlob(error.value.rest);
        if data.None? then None
        else
          var entries := UnpackTexts(data.value.rest);
          if entries.None? || entries.value.rest != [] then None
          else Some(S.Response(b[0] == 1, error.value.value, data.value.value, entries.value.value))
  }

  lemma ResponseReadBack(r: S.Response)
    ensures UnpackResponse(PackResponse(r)) == Some(r)
  {
    var b, last := PackResponse(r), PackTexts(r.entries);
    assert b[1..] == PackText(r.error) + (PackBlob(r.data) + last);
    TextReadBack(r.error, PackBlob(r.data) + last);
    BlobReadBack(r.data, last);
    assert last + [] == last;
    TextsReadBack(r.entries, []);
  }

  /* ---------- What is taken of a packed form can be met ---------- */

  const CODEC: R.Codec := R.Codec(PackCommand, UnpackCommand)

  const WIRE: S.Wire := S.Wire(PackCommand, UnpackCommand, PackResponse, UnpackResponse)

  const REFUSAL: S.Response := S.Response(false, "", [], [])

  /** The codec that `AcksHoldExactly` asks for exists. */
  lemma CodecQualifies()
    ensures R.Lossless(CODEC) && CX.Fits(CODEC)
  {
    forall c: Command ensures CODEC.unpack(CODEC.pack(c)) == Some(c) {
      CommandReadBack(c);
    }
    forall c: Command | Mutating(c.kind) && Small(c, 1) ensures |CODEC.pack(c)| <= SIZE_LIMIT {
      CommandLength(c);
    }
  }

  /** So does the wire format that `PairingExactly` asks for. */
  lemma WireQualifies()
    ensures S.Lossless(WIRE) && S.SelfDelimiting(WIRE) && Sendable(WIRE.packResponse(REFUSAL))
  {
    forall c: Command ensures WIRE.unpackCommand(WIRE.packCommand(c)) == Some(c) {
      CommandReadBack(c);
    }
    forall r: S.Response ensures WIRE.unpackResponse(WIRE.packResponse(r)) == Some(r) {
      ResponseReadBack(r);
    }
    forall c: Command, n: nat | n < |WIRE.packCommand(c)|
      ensures WIRE.unpackCommand(WIRE.packCommand(c)[..n]) != Some(c)
    {
      CommandTakes(WIRE.packCommand(c)[..n]);
    }
  }

  /** The two exact answers, for this packed form, with nothing left to assume. */
  lemma ExactAnswersHold(kinds: set<Kind>, commands: set<Command>)
    ensures CX.AcksAlwaysHold(CODEC, kinds) <==> forall k :: k in kinds && Mutating(k) ==> Repeatable(k)
    ensures S.AlwaysPaired(WIRE, commands) <==> forall c :: c in commands ==> Unambiguous(PackCommand(c))
  {
    CodecQualifies();
    CX.AcksHoldExactly(CODEC, kinds);
    WireQualifies();
    S.PairingExactly(WIRE, commands, REFUSAL);
    assert forall c :: WIRE.packCommand(c) == PackCommand(c);
  }

  /** Commands that break the pairing exist: a write of 2^31 bytes packs to 2^32 bytes and a few. */
  lemma AmbiguousCommandExists(path: string) returns (c: Command)
    requires |path| <= 4096
    ensures c.kind == WriteFile && c.path == path && !Unambiguous(PackCommand(c)) && !S.AlwaysPaired(WIRE, {c})
  {
    c := Command(WriteFile, path, "", seq(0x8000_0000, _ => 0));
    CommandLength(c);
    ExactAnswersHold({}, {c});
  }
}
