/** The address book codec: a counted list of length-prefixed addresses in one frame. Which
    byte strings are peer ids and addresses is left open (`valid`). */
module AddrCodec {
  import opened Bytes
  import opened Wire

  const U16_MAX: nat := 65535
  const MAX_PEER_ID: nat := 256

  type Validity = Bytes -> bool

  // ----- Requests -----

  function EncodeRequest(peer: Bytes): Bytes { Le(|peer|, 4) + peer }

  function DecodeRequest(valid: Validity, s: Bytes): Read<Bytes> {
    match ReadFrame(s, 1, MAX_PEER_ID)
    case Failed(e) => Failed(e)
    case Got(f, rest) => if valid(f) then Got(f, rest) else Failed(InvalidData)
  }

  lemma RequestRoundTrip(valid: Validity, peer: Bytes, rest: Bytes)
    requires valid(peer)
    ensures DecodeRequest(valid, EncodeRequest(peer) + rest) == Got(peer, rest) <==> 1 <= |peer| <= MAX_PEER_ID
  {
    if 1 <= |peer| <= MAX_PEER_ID { FrameRoundTrip(peer, rest, 1, MAX_PEER_ID); }
  }

  /** An address request is accepted exactly if it is the encoding of a valid peer id of an
      acceptable length. */
  lemma RequestExactly(valid: Validity, s: Bytes, peer: Bytes, rest: Bytes)
    ensures DecodeRequest(valid, s) == Got(peer, rest) <==>
            valid(peer) && 1 <= |peer| <= MAX_PEER_ID && s == EncodeRequest(peer) + rest
  {
    if valid(peer) { RequestRoundTrip(valid, peer, rest); }
    if DecodeRequest(valid, s) == Got(peer, rest) {
      LeOfFromLe(s[..4]);
      assert s[4..] == peer + rest;
      Concat(s[..4], peer, rest);
      assert s == s[..4] + s[4..];
    }
  }

  // ----- Responses -----

  function Record(addr: Bytes): Bytes {
    Le(Min(|addr|, U16_MAX), 2) + addr[..Min(|addr|, U16_MAX)]
  }

  function Records(addrs: seq<Bytes>): Bytes {
    if addrs == [] then [] else Record(addrs[0]) + Records(addrs[1..])
  }

  /** All addresses are written, though the count stops at 65535. */
  function Payload(addrs: seq<Bytes>): Bytes {
    [1] + Le(Min(|addrs|, U16_MAX), 2) + Records(addrs)
  }

  function EncodeResponse(addrs: seq<Bytes>): Bytes {
    if addrs == [] then Le(1, 4) + [0] else Le(|Payload(addrs)|, 4) + Payload(addrs)
  }

  /** `count` records from `pos`; addresses that do not parse are skipped. */
  function ParseRecords(valid: Validity, f: Bytes, pos: nat, count: nat): Option<seq<Bytes>>
    decreases count
  {
    if count == 0 then Some([])
    else if pos + 2 > |f| then None else
    var len := FromLe(f[pos..pos + 2]);
    if pos + 2 + len > |f| then None else
    match ParseRecords(valid, f, pos + 2 + len, count - 1)
    case None => None
    case Some(rest) =>
      var addr := f[pos + 2..pos + 2 + len];
      Some(if valid(addr) then [addr] + rest else rest)
  }

  function ParseResponse(valid: Validity, f: Bytes): Option<seq<Bytes>>
    requires f != []
  {
    if f[0] == 0 then Some([])
    else if f[0] != 1 || |f| < 3 then None
    else ParseRecords(valid, f, 3, FromLe(f[1..3]))
  }

  function DecodeResponse(valid: Validity, s: Bytes): Read<seq<Bytes>> {
    match ReadFrame(s, 1, MAX_MESSAGE)
    case Failed(e) => Failed(e)
    case Got(f, rest) =>
      match ParseResponse(valid, f)
      case None => Failed(InvalidData)
      case Some(addrs) => Got(addrs, rest)
  }

  // ----- The decoder, frame by frame -----

  function Valid(valid: Validity, addrs: seq<Bytes>): seq<Bytes> {
    if addrs == [] then [] else
    (if valid(addrs[0]) then [addrs[0]] else []) + Valid(valid, addrs[1..])
  }

  ghost predicate Short(addrs: seq<Bytes>) {
    forall i :: 0 <= i < |addrs| ==> |addrs[i]| <= U16_MAX
  }

  /** The frame holds these records, back to back, from `pos`. */
  ghost predicate Holds(f: Bytes, pos: nat, addrs: seq<Bytes>) {
    Short(addrs) && pos <= |f| && Records(addrs) <= f[pos..]
  }

  lemma RecordAt(f: Bytes, pos: nat, addr: Bytes, after: Bytes)
    requires |addr| <= U16_MAX && pos <= |f| && Record(addr) + after <= f[pos..]
    ensures pos + 2 + |addr| <= |f| && FromLe(f[pos..pos + 2]) == |addr| && f[pos + 2..pos + 2 + |addr|] == addr
    ensures after <= f[pos + 2 + |addr|..]
  {
    Widths();
    LeRoundTrip(|addr|, 2);
    var r, tail := Record(addr), f[pos..];
    assert addr[..|addr|] == addr;
    assert tail[..|r| + |after|] == r + after;
    assert f[pos..pos + 2] == tail[..2] == r[..2] == Le(|addr|, 2);
    assert f[pos + 2..pos + 2 + |addr|] == tail[2..2 + |addr|] == r[2..] == addr;
    assert f[pos + 2 + |addr|..] == tail[|r|..];
    assert tail[|r|..][..|after|] == after;
  }

  lemma {:induction false} ParseComplete(valid: Validity, f: Bytes, pos: nat, addrs: seq<Bytes>)
    requires Holds(f, pos, addrs)
    ensures ParseRecords(valid, f, pos, |addrs|) == Some(Valid(valid, addrs))
    decreases |addrs|
  {
    if addrs != [] {
      var addr, rest := addrs[0], addrs[1..];
      RecordAt(f, pos, addr, Records(rest));
      assert Holds(f, pos + 2 + |addr|, rest);
      ParseComplete(valid, f, pos + 2 + |addr|, rest);
      assert [] + Valid(valid, rest) == Valid(valid, rest);
    }
  }

  /** The length field determines the two bytes that hold it. */
  lemma TwoBytes(b: Bytes)
    requires |b| == 2
    ensures Le(FromLe(b), 2) == b && FromLe(b) <= U16_MAX
  {
    LeOfFromLe(b);
    FromLeBound(b);
    Widths();
  }

  lemma {:induction false} ParseSound(valid: Validity, f: Bytes, pos: nat, count: nat) returns (addrs: seq<Bytes>)
    requires pos <= |f| && ParseRecords(valid, f, pos, count).Some?
    ensures |addrs| == count && Holds(f, pos, addrs)
    decreases count
  {
    if count == 0 {
      addrs := [];
    } else {
      var len := FromLe(f[pos..pos + 2]);
      var addr := f[pos + 2..pos + 2 + len];
      TwoBytes(f[pos..pos + 2]);
      var rest := ParseSound(valid, f, pos + 2 + len, count - 1);
      HoldsMore(f, pos, addr, rest);
      addrs := [addr] + rest;
    }
  }

  /** A record in front of others. */
  lemma HoldsMore(f: Bytes, pos: nat, addr: Bytes, rest: seq<Bytes>)
    requires |addr| <= U16_MAX && pos + 2 + |addr| <= |f|
    requires f[pos..pos + 2] == Le(|addr|, 2) && f[pos + 2..pos + 2 + |addr|] == addr
    requires Holds(f, pos + 2 + |addr|, rest)
    ensures Holds(f, pos, [addr] + rest)
  {
    var all, tail := [addr] + rest, f[pos + 2 + |addr|..];
    assert all[1..] == rest && addr[..|addr|] == addr;
    Pieces(f, pos, pos + 2, pos + 2 + |addr|);
    assert f[pos..] == Record(addr) + tail;
    PrefixBehind(Record(addr), Records(rest), tail);
  }

  lemma Pieces(f: Bytes, a: nat, b: nat, c: nat)
    requires a <= b <= c <= |f|
    ensures f[a..] == f[a..b] + f[b..c] + f[c..]
  {
  }

  lemma PrefixBehind(head: Bytes, part: Bytes, all: Bytes)
    requires part <= all
    ensures head + part <= head + all
  {
    assert (head + all)[..|head + part|] == head + all[..|part|];
  }

  /** On every frame the decoder succeeds exactly when `count` records fit, and returns the
      valid ones among them in their order. */
  lemma ParseExact(valid: Validity, f: Bytes, pos: nat, count: nat)
    requires pos <= |f|
    ensures ParseRecords(valid, f, pos, count).Some? <==> exists addrs :: |addrs| == count && Holds(f, pos, addrs)
    ensures forall addrs :: |addrs| == count && Holds(f, pos, addrs) ==>
              ParseRecords(valid, f, pos, count) == Some(Valid(valid, addrs))
  {
    forall addrs | |addrs| == count && Holds(f, pos, addrs)
      ensures ParseRecords(valid, f, pos, count) == Some(Valid(valid, addrs))
    {
      ParseComplete(valid, f, pos, addrs);
    }
    if ParseRecords(valid, f, pos, count).Some? {
      var addrs := ParseSound(valid, f, pos, count);
      assert |addrs| == count && Holds(f, pos, addrs);
    }
  }

  // ----- Round trip -----

  lemma {:induction false} RecordsPrefix(addrs: seq<Bytes>, k: nat)
    requires k <= |addrs|
    ensures Records(addrs[..k]) <= Records(addrs)
    decreases k
  {
    if k > 0 {
      RecordsPrefix(addrs[1..], k - 1);
      assert addrs[..k][1..] == addrs[1..][..k - 1];
      var head, part, all := Record(addrs[0]), Records(addrs[1..][..k - 1]), Records(addrs[1..]);
      assert part == all[..|part|];
      assert (head + all)[..|head| + |part|] == head + part;
    }
  }

  lemma {:induction false} AllValid(valid: Validity, addrs: seq<Bytes>)
    requires forall i :: 0 <= i < |addrs| ==> valid(addrs[i])
    ensures Valid(valid, addrs) == addrs
  {
    if addrs != [] { AllValid(valid, addrs[1..]); }
  }

  /** Dropping invalid addresses never makes the records longer, nor the list. */
  lemma {:induction false} ValidShrinks(valid: Validity, addrs: seq<Bytes>)
    ensures |Valid(valid, addrs)| <= |addrs| && |Records(Valid(valid, addrs))| <= |Records(addrs)|
  {
    if addrs != [] {
      ValidShrinks(valid, addrs[1..]);
      if valid(addrs[0]) {
        assert Valid(valid, addrs)[1..] == Valid(valid, addrs[1..]);
      } else {
        assert Valid(valid, addrs) == Valid(valid, addrs[1..]);
      }
    }
  }

  /** Reading the encoder's frame yields the first 65535 addresses. */
  lemma ParsePayload(valid: Validity, addrs: seq<Bytes>)
    requires Short(addrs) && (forall i :: 0 <= i < |addrs| ==> valid(addrs[i]))
    ensures ParseResponse(valid, Payload(addrs)) == Some(addrs[..Min(|addrs|, U16_MAX)])
  {
    var f, count := Payload(addrs), Min(|addrs|, U16_MAX);
    Widths();
    LeRoundTrip(count, 2);
    assert f[1..3] == Le(count, 2);
    assert f[3..] == Records(addrs);
    RecordsPrefix(addrs, count);
    ParseComplete(valid, f, 3, addrs[..count]);
    AllValid(valid, addrs[..count]);
  }

  lemma ResponseRoundTrip(valid: Validity, addrs: seq<Bytes>, rest: Bytes)
    requires Short(addrs) && (forall i :: 0 <= i < |addrs| ==> valid(addrs[i]))
    requires |Payload(addrs)| <= MAX_MESSAGE
    ensures DecodeResponse(valid, EncodeResponse(addrs) + rest) == Got(addrs[..Min(|addrs|, U16_MAX)], rest)
  {
    if addrs == [] {
      FrameRoundTrip([0], rest, 1, MAX_MESSAGE);
    } else {
      FrameRoundTrip(Payload(addrs), rest, 1, MAX_MESSAGE);
      ParsePayload(valid, addrs);
    }
  }

  /** No frame yields more than 65535 addresses, or records longer than itself. */
  lemma ResponseBounded(valid: Validity, f: Bytes)
    requires f != [] && ParseResponse(valid, f).Some?
    ensures var addrs := ParseResponse(valid, f).value;
            addrs == [] || (|addrs| <= U16_MAX && 3 + |Records(addrs)| <= |f|)
  {
    if f[0] == 1 {
      TwoBytes(f[1..3]);
      var all := ParseSound(valid, f, 3, FromLe(f[1..3]));
      ParseComplete(valid, f, 3, all);
      ValidShrinks(valid, all);
    }
  }

  /** The whole list survives exactly when the count field and one message can hold it. */
  lemma ResponseRoundTripExactly(valid: Validity, addrs: seq<Bytes>, rest: Bytes)
    requires addrs != [] && Short(addrs) && (forall i :: 0 <= i < |addrs| ==> valid(addrs[i]))
    ensures DecodeResponse(valid, EncodeResponse(addrs) + rest) == Got(addrs, rest)
            <==> |addrs| <= U16_MAX && |Payload(addrs)| <= MAX_MESSAGE
  {
    if |addrs| <= U16_MAX && |Payload(addrs)| <= MAX_MESSAGE {
      ResponseRoundTrip(valid, addrs, rest);
      assert addrs[..|addrs|] == addrs;
    } else {
      var s := EncodeResponse(addrs) + rest;
      var frame := ReadFrame(s, 1, MAX_MESSAGE);
      if frame.Got? && ParseResponse(valid, frame.value).Some? {
        ResponseBounded(valid, frame.value);
        assert |Payload(addrs)| == 3 + |Records(addrs)|;
      }
    }
  }

  // ----- Whatever addresses are written -----

  /** An address is cut to what its length field can say. */
  function Cut(addr: Bytes): Bytes { addr[..Min(|addr|, U16_MAX)] }

  function CutAll(addrs: seq<Bytes>): seq<Bytes> {
    if addrs == [] then [] else [Cut(addrs[0])] + CutAll(addrs[1..])
  }

  lemma {:induction false} CutRecords(addrs: seq<Bytes>)
    ensures Records(CutAll(addrs)) == Records(addrs) && |CutAll(addrs)| == |addrs| && Short(CutAll(addrs))
  {
    if addrs != [] {
      CutRecords(addrs[1..]);
      var cut := Cut(addrs[0]);
      assert cut[..|cut|] == cut;
      assert Record(cut) == Record(addrs[0]);
      assert CutAll(addrs)[1..] == CutAll(addrs[1..]);
    }
  }

  /** For any addresses, too many, too long or invalid: what is read back is the first 65535 of
      them, each cut to 65535 bytes, without those that are then invalid. */
  lemma AnyResponse(valid: Validity, addrs: seq<Bytes>, rest: Bytes)
    requires addrs != [] && |Payload(addrs)| <= MAX_MESSAGE
    ensures DecodeResponse(valid, EncodeResponse(addrs) + rest) ==
            Got(Valid(valid, CutAll(addrs)[..Min(|CutAll(addrs)|, U16_MAX)]), rest)
  {
    var cut := CutAll(addrs);
    var f, count := Payload(addrs), Min(|cut|, U16_MAX);
    CutRecords(addrs);
    FrameRoundTrip(f, rest, 1, MAX_MESSAGE);
    Widths();
    LeRoundTrip(count, 2);
    assert f[1..3] == Le(count, 2) && f[3..] == Records(cut);
    RecordsPrefix(cut, count);
    ParseComplete(valid, f, 3, cut[..count]);
  }

  /** Which frames are read, and as what: a first byte zero as no addresses, a first byte one as
      the records counted; every other whole frame is refused. */
  lemma ResponseAccepts(valid: Validity, f: Bytes, rest: Bytes, addrs: seq<Bytes>)
    requires 1 <= |f| <= MAX_MESSAGE
    ensures var r := DecodeResponse(valid, Le(|f|, 4) + f + rest);
            && (f[0] == 0 ==> r == Got([], rest))
            && (f[0] == 1 && |f| >= 3 && |addrs| == FromLe(f[1..3]) && Holds(f, 3, addrs) ==>
                  r == Got(Valid(valid, addrs), rest))
            && (r.Got? && f[0] != 0 ==>
                  f[0] == 1 && |f| >= 3 && exists all :: |all| == FromLe(f[1..3]) && Holds(f, 3, all))
            && (r.Failed? ==> r == Failed(InvalidData))
  {
    FrameRoundTrip(f, rest, 1, MAX_MESSAGE);
    if f[0] == 1 && |f| >= 3 { ParseExact(valid, f, 3, FromLe(f[1..3])); }
  }

  // ----- On a stream -----

  method BuildPayload(addrs: seq<Bytes>) returns (payload: Bytes)
    ensures payload == Payload(addrs)
  {
    payload := [1] + Le(Min(|addrs|, U16_MAX), 2);
    for i := 0 to |addrs|
      invariant payload + Records(addrs[i..]) == Payload(addrs)
    {
      assert addrs[i..][1..] == addrs[i + 1..];
      assert Records(addrs[i..]) == Record(addrs[i]) + Records(addrs[i + 1..]);
      var bytes := addrs[i];
      var len := Min(|bytes|, U16_MAX);
      var record := Le(len, 2) + bytes[..len];
      Concat(payload, record, Records(addrs[i + 1..]));
      payload := payload + record;
    }
  }

  method WriteResponse(io: Io, addrs: seq<Bytes>)
    modifies io`output
    ensures io.output == old(io.output) + EncodeResponse(addrs)
  {
    ghost var before := io.output;
    var payload := [0];
    if addrs != [] { payload := BuildPayload(addrs); }
    var header := Le(|payload|, 4);
    io.WriteAll(header);
    io.WriteAll(payload);
    Concat(before, header, payload);
  }

  function Prepend(done: seq<Bytes>, rest: Option<seq<Bytes>>): Option<seq<Bytes>> {
    if rest.None? then None else Some(done + rest.value)
  }

  lemma PrependMore(done: seq<Bytes>, more: seq<Bytes>, rest: Option<seq<Bytes>>)
    ensures Prepend(done, Prepend(more, rest)) == Prepend(done + more, rest)
  {
    if rest.Some? { assert done + (more + rest.value) == done + more + rest.value; }
  }

  lemma PrependNothing(rest: Option<seq<Bytes>>)
    ensures Prepend([], rest) == rest
  {
    if rest.Some? { assert [] + rest.value == rest.value; }
  }

  /** One turn of the decoder's loop. */
  lemma TakeRecord(valid: Validity, f: Bytes, pos: nat, count: nat, done: seq<Bytes>)
    requires pos + 2 <= |f| && count > 0
    ensures var len := FromLe(f[pos..pos + 2]);
            if pos + 2 + len > |f| then ParseRecords(valid, f, pos, count).None?
            else
              var addr := f[pos + 2..pos + 2 + len];
              Prepend(done, ParseRecords(valid, f, pos, count)) ==
              Prepend(done + (if valid(addr) then [addr] else []), ParseRecords(valid, f, pos + 2 + len, count - 1))
  {
    var len := FromLe(f[pos..pos + 2]);
    if pos + 2 + len <= |f| {
      var addr, rest := f[pos + 2..pos + 2 + len], ParseRecords(valid, f, pos + 2 + len, count - 1);
      var more := if valid(addr) then [addr] else [];
      PrependNothing(rest);
      PrependMore(done, more, rest);
      assert ParseRecords(valid, f, pos, count) == Prepend(more, rest);
    }
  }

  method ParseLoop(valid: Validity, buf: Bytes, count: nat) returns (r: Option<seq<Bytes>>)
    requires |buf| >= 3
    ensures r == ParseRecords(valid, buf, 3, count)
  {
    var pos := 3;
    var addresses: seq<Bytes> := [];
    PrependNothing(ParseRecords(valid, buf, 3, count));
    for k := 0 to count
      invariant 3 <= pos <= |buf|
      invariant ParseRecords(valid, buf, 3, count) == Prepend(addresses, ParseRecords(valid, buf, pos, count - k))
    {
      if pos + 2 > |buf| { return None; }
      TakeRecord(valid, buf, pos, count - k, addresses);
      var len := FromLe(buf[pos..pos + 2]);
      pos := pos + 2;
      if pos + len > |buf| { return None; }
      var addr := buf[pos..pos + len];
      addresses := addresses + (if valid(addr) then [addr] else []);
      pos := pos + len;
    }
    assert addresses + [] == addresses;
    r := Some(addresses);
  }

  method ReadResponse(valid: Validity, io: Io) returns (r: Read<seq<Bytes>>)
    modifies io`input
    ensures r == DecodeResponse(valid, old(io.input))
    ensures r.Got? ==> io.input == r.rest
  {
    var frame := io.TakeFrame(1, MAX_MESSAGE);
    if frame.Failed? { return Failed(frame.error); }
    var buf := frame.value;
    if buf[0] == 0 { return Got([], frame.rest); }
    if buf[0] != 1 || |buf| < 3 { return Failed(InvalidData); }
    var addresses := ParseLoop(valid, buf, FromLe(buf[1..3]));
    r := if addresses.None? then Failed(InvalidData) else Got(addresses.value, frame.rest);
  }
}
