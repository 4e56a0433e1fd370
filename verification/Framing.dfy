/** The client's framing (cmd/cetcdctl/main.c): requests and responses as length-prefixed frames
    over a connection that may accept and deliver any number of bytes at a time. */
module Framing {
  import opened Bytes

  const MAX_TOKEN: nat := 2048
  const HEADER_SIZE: nat := 2560  // CETCD_AUTH_MAX_TOKEN_LEN + 512
  const MAX_PATH: nat := 256

  // ---------------------------------------------------------------------- the frame

  function BE16(n: nat): (b: seq<byte>)
    ensures |b| == 2
  {
    [n / 256 % 256, n % 256]
  }

  function BE32(n: nat): (b: seq<byte>)
    ensures |b| == 4
  {
    [n / 0x100_0000 % 256, n / 0x1_0000 % 256, n / 0x100 % 256, n % 256]
  }

  function Read16(b: seq<byte>): nat
    requires |b| == 2
  {
    b[0] as int * 256 + b[1] as int
  }

  function Read32(b: seq<byte>): nat
    requires |b| == 4
  {
    b[0] as int * 0x100_0000 + b[1] as int * 0x1_0000 + b[2] as int * 0x100 + b[3] as int
  }

  lemma Read32Back(n: nat)
    ensures Read32(BE32(n)) == n % TWO_32
  {
    Digit(n, 1);
    Digit(n, 0x100);
    Digit(n, 0x1_0000);
    Digit(n, 0x100_0000);
  }

  lemma Digit(n: nat, d: nat)
    requires d in {1, 0x100, 0x1_0000, 0x100_0000}
    ensures n / d == 256 * (n / (256 * d)) + n / d % 256
  {
  }

  /** The header of send_request: path, flags with an optional token, payload length. */
  function Header(path: seq<byte>, token: seq<byte>, payloadLen: nat): seq<byte> {
    BE16(|path|) + (path + ((if token == [] then [0] else [2] + BE16(|token|) + token) + BE32(payloadLen)))
  }

  function Frame(path: seq<byte>, token: seq<byte>, payload: seq<byte>): seq<byte> {
    Header(path, token, |payload|) + payload
  }

  /** A token that is too long is not told. */
  function Told(token: seq<byte>): seq<byte> {
    if |token| <= MAX_TOKEN then token else []
  }

  /** Sent, refused or broken off, or the path was copied past the end of the header buffer. */
  datatype Sending = Done | Failed | LeftHeader

  /** Every byte of the path is copied to a place inside the header buffer; the code copies before it
      looks. */
  ghost predicate CopyInside(path: seq<byte>) {
    forall k :: 0 <= k < |path| ==> Place(k) < HEADER_SIZE
  }

  function Place(k: nat): nat {
    2 + k
  }

  lemma CopyInsideIff(path: seq<byte>)
    ensures CopyInside(path) <==> |path| <= 2558
  {
    if |path| > 2558 { assert Place(2558) == HEADER_SIZE; }
  }

  method RestOfHeader(start: seq<byte>, path: seq<byte>, token: seq<byte>, payloadLen: nat) returns (header: seq<byte>)
    requires start == BE16(|path|) + path
    ensures header == Header(path, Told(token), payloadLen)
  {
    var flags := if 0 < |token| <= MAX_TOKEN then 2 else 0;
    header := start + [flags];
    if flags == 2 {
      header := header + [|token| / 256, |token| % 256];
      header := header + token;
    }
    header := header + [payloadLen / 0x100_0000 % 256, payloadLen / 0x1_0000 % 256, payloadLen / 0x100 % 256, payloadLen % 256];
    ghost var mid := if Told(token) == [] then [0] else [2] + BE16(|token|) + token;
    assert header == start + mid + BE32(payloadLen);
    assert start + mid + BE32(payloadLen) == BE16(|path|) + (path + (mid + BE32(payloadLen)));
  }

  // ------------------------------------------------------------------- the connection

  /** A byte stream both ways.  `sizes` says how many bytes the n-th transfer moves at most; 0 or
      less is an error. */
  class Conn {
    const sizes: nat -> int
    var calls: nat
    var sent: seq<byte>
    var arrived: seq<byte>

    constructor (sizes: nat -> int, arrived: seq<byte>)
      ensures this.sizes == sizes && calls == 0 && sent == [] && this.arrived == arrived
    {
      this.sizes, this.calls, this.sent, this.arrived := sizes, 0, [], arrived;
    }

    /** No transfer fails. */
    ghost predicate Alive() {
      forall k: nat :: sizes(k) > 0
    }

    /** conn_send_all. */
    method SendAll(buf: seq<byte>) returns (ok: bool)
      modifies this`calls, this`sent
      ensures ok ==> sent == old(sent) + buf
      ensures !ok ==> exists k :: 0 <= k < |buf| && sent == old(sent) + buf[..k]
      ensures Alive() ==> ok
    {
      var off := 0;
      while off < |buf|
        invariant 0 <= off <= |buf|
        invariant sent == old(sent) + buf[..off]
      {
        var n := sizes(calls);
        calls := calls + 1;
        if n > |buf| - off { n := |buf| - off; }
        if n <= 0 { return false; }
        assert buf[..off + n] == buf[..off] + buf[off..off + n];
        sent := sent + buf[off..off + n];
        off := off + n;
      }
      assert buf[..off] == buf;
      return true;
    }

    /** conn_recv_all: the bytes, or None after an error or the end of the stream. */
    method RecvAll(len: nat) returns (r: Option<seq<byte>>)
      modifies this`calls, this`arrived
      ensures r.Some? ==> |r.value| == len && old(arrived) == r.value + arrived
      ensures Alive() && |old(arrived)| >= len ==> r.Some?
      ensures |old(arrived)| < len ==> r.None?
      ensures r.None? ==> exists k :: 0 <= k < len && k <= |old(arrived)| && arrived == old(arrived)[k..]
    {
      var off := 0;
      var buf: seq<byte> := [];
      while off < len
        invariant 0 <= off <= len && off <= |old(arrived)|
        invariant buf == old(arrived)[..off] && arrived == old(arrived)[off..]
      {
        var n := sizes(calls);
        calls := calls + 1;
        if n > len - off { n := len - off; }
        if n > |arrived| { n := |arrived|; }
        if n <= 0 { return None; }
        buf := buf + arrived[..n];
        arrived := arrived[n..];
        off := off + n;
      }
      assert old(arrived)[..off] + old(arrived)[off..] == old(arrived);
      return Some(buf);
    }

    /** send_request; `maxSend` of 0 is no limit. */
    method SendRequest(path: seq<byte>, token: seq<byte>, payload: seq<byte>, maxSend: nat) returns (r: Sending)
      modifies this`calls, this`sent
      ensures r.LeftHeader? <==> !CopyInside(path)
      ensures r.Done? ==> sent == old(sent) + Frame(path, Told(token), payload)
      ensures r.Done? ==> Admitted(path, token, payload, maxSend)
      ensures Alive() && Admitted(path, token, payload, maxSend) ==> r.Done?
      ensures !Admitted(path, token, payload, maxSend) ==> sent == old(sent)
    {
      CopyInsideIff(path);
      if 2 + |path| > HEADER_SIZE { return LeftHeader; }
      var header := [|path| / 256, |path| % 256] + path;
      if |header| + |token| + 8 > HEADER_SIZE { return Failed; }
      header := RestOfHeader(header, path, token, |payload|);
      if maxSend > 0 && |payload| > maxSend { return Failed; }
      hide Header;
      var ok := SendAll(header);
      if !ok { return Failed; }
      if |payload| > 0 {
        ok := SendAll(payload);
        if !ok { return Failed; }
      }
      return Done;
    }

    /** recv_response into a buffer of `cap` bytes; `maxRecv` of 0 is no limit. */
    method RecvResponse(cap: nat, maxRecv: nat) returns (r: Option<seq<byte>>)
      modifies this`calls, this`arrived
      ensures r.Some? ==> Response(old(arrived), cap, maxRecv) == Some((r.value, arrived))
      ensures Alive() && Response(old(arrived), cap, maxRecv).Some? ==> r.Some?
    {
      ghost var s := arrived;
      var h := RecvAll(2);
      if h.None? { return None; }
      var pathLen := h.value[0] as int * 256 + h.value[1] as int;
      assert s[..2] == h.value && s[2..] == arrived;
      if pathLen > MAX_PATH { return None; }
      ghost var s1 := arrived;
      var hdr := RecvAll(pathLen + 5);
      if hdr.None? { return None; }
      assert s1[..pathLen + 5] == hdr.value && s1[pathLen + 5..] == arrived;
      assert s1[pathLen + 1..pathLen + 5] == hdr.value[pathLen + 1..];
      var payloadLen := Read32(hdr.value[pathLen + 1..]);
      if maxRecv > 0 && payloadLen > maxRecv { return None; }
      if payloadLen >= cap { return None; }
      ghost var s2 := arrived;
      if payloadLen > 0 {
        r := RecvAll(payloadLen);
        if r.None? { return; }
        assert s2[..payloadLen] == r.value && s2[payloadLen..] == arrived;
      } else {
        r := Some([]);
      }
    }
  }

  /** Requests that fit the header buffer and the send limit. */
  predicate Admitted(path: seq<byte>, token: seq<byte>, payload: seq<byte>, maxSend: nat) {
    && 2 + |path| + |token| + 8 <= HEADER_SIZE
    && (maxSend == 0 || |payload| <= maxSend)
  }

  /** The payload of the response at the start of a stream, and what follows it. */
  function Response(s: seq<byte>, cap: nat, maxRecv: nat): Option<(seq<byte>, seq<byte>)> {
    if |s| < 2 then None
    else
      var pathLen := Read16(s[..2]);
      if pathLen > MAX_PATH then None
      else
        var s1 := s[2..];
        if |s1| < pathLen + 5 then None
        else
          var n := Read32(s1[pathLen + 1..pathLen + 5]);
          if (maxRecv > 0 && n > maxRecv) || n >= cap then None
          else
            var s2 := s1[pathLen + 5..];
            if |s2| < n then None else Some((s2[..n], s2[n..]))
  }

  // ------------------------------------------------------------------------- theorems

  predicate Receivable(path: seq<byte>, payload: seq<byte>, cap: nat, maxRecv: nat) {
    && |path| <= MAX_PATH
    && |payload| < TWO_32 && |payload| < cap
    && (maxRecv == 0 || |payload| <= maxRecv)
  }

  lemma BigEndian2(b: seq<byte>)
    requires |b| == 2
    ensures Base256(b) == Read16(b)
  {
    assert b[..1][..0] == [];
    assert Base256(b[..1]) == 256 * Base256(b[..1][..0]) + b[0];
  }

  lemma BigEndian4(b: seq<byte>)
    requires |b| == 4
    ensures Base256(b) == Read32(b)
  {
    BigEndian2(b[..2]);
    assert b[..3][..2] == b[..2];
  }

  /** A request on the wire: the length of the path in two bytes and the path, then 0, or 2 with the
      length of the token in two bytes and the token, then the length of the payload in four bytes
      and the payload. */
  ghost predicate IsRequest(f: seq<byte>, path: seq<byte>, token: seq<byte>, payload: seq<byte>) {
    exists p, t, n :: Lengths(p, t, n, |path|, |token|, |payload|) && f == p + path + Flagged(t, token) + n + payload
  }

  ghost predicate Lengths(p: seq<byte>, t: seq<byte>, n: seq<byte>, path: nat, token: nat, payload: nat) {
    && |p| == 2 && Base256(p) == path
    && |t| == 2 && Base256(t) == token
    && |n| == 4 && Base256(n) == payload
  }

  function Flagged(t: seq<byte>, token: seq<byte>): seq<byte> {
    if token == [] then [0] else [2] + t + token
  }

  /** What is sent says path and payload, and the token unless that is longer than 2048 bytes. */
  lemma FrameSays(path: seq<byte>, token: seq<byte>, payload: seq<byte>)
    requires |path| < 65536 && |payload| < TWO_32
    ensures IsRequest(Frame(path, Told(token), payload), path, if |token| <= 2048 then token else [], payload)
  {
    FrameIs(path, Told(token), payload);
  }

  lemma FrameIs(path: seq<byte>, token: seq<byte>, payload: seq<byte>)
    requires |path| < 65536 && |token| < 65536 && |payload| < TWO_32
    ensures IsRequest(Frame(path, token, payload), path, token, payload)
  {
    var p, t, n := BE16(|path|), BE16(|token|), BE32(|payload|);
    assert Lengths(p, t, n, |path|, |token|, |payload|) by { LengthsSaid(|path|, |token|, |payload|); }
    assert Frame(path, token, payload) == (p + (path + (Flagged(t, token) + n))) + payload;
    hide BE16, BE32, Lengths, Flagged, Frame;
    Flat(p, path, Flagged(t, token), n, payload);
  }

  lemma LengthsSaid(path: nat, token: nat, payload: nat)
    requires path < 65536 && token < 65536 && payload < TWO_32
    ensures Lengths(BE16(path), BE16(token), BE32(payload), path, token, payload)
  {
    hide BE16, BE32, Base256, Read32, Read16;
    Read16Back(path);
    Read16Back(token);
    Read32Back(payload);
    assert payload % TWO_32 == payload;
    BigEndian2(BE16(path));
    BigEndian2(BE16(token));
    BigEndian4(BE32(payload));
  }

  lemma Read16Back(n: nat)
    requires n < 65536
    ensures Read16(BE16(n)) == n
  {
  }

  lemma Flat(a: seq<byte>, b: seq<byte>, c: seq<byte>, d: seq<byte>, e: seq<byte>)
    ensures (a + (b + (c + d))) + e == a + b + c + d + e
    ensures a + (b + (c + (d + e))) == a + b + c + d + e
  {
  }

  /** Requests are admitted up to 2550 bytes of path and token, and their headers fit the buffer. */
  lemma AdmittedIff(path: seq<byte>, token: seq<byte>, payload: seq<byte>, maxSend: nat)
    ensures Admitted(path, token, payload, maxSend)
            <==> |path| + |token| <= 2550 && (maxSend == 0 || |payload| <= maxSend)
    ensures Admitted(path, token, payload, maxSend) ==> |Header(path, Told(token), |payload|)| <= 2560
  {
  }

  /** A response on the wire: the length of the path in two bytes, the path, one byte, the length of
      the payload in four bytes and the payload. */
  ghost predicate IsResponse(f: seq<byte>, path: seq<byte>, payload: seq<byte>) {
    exists p, flag, n ::
      && |p| == 2 && Base256(p) == |path|
      && |n| == 4 && Base256(n) == |payload|
      && f == p + path + [flag] + n + payload
  }

  /** A response is received if and only if the stream starts with one whose path has at most 256
      bytes and whose payload is within the limits, and it is received as its payload. */
  lemma ResponseIff(s: seq<byte>, cap: nat, maxRecv: nat, payload: seq<byte>, rest: seq<byte>)
    ensures Response(s, cap, maxRecv) == Some((payload, rest))
            <==> && (exists f, path :: s == f + rest && IsResponse(f, path, payload) && |path| <= 256)
                 && |payload| < cap && (maxRecv == 0 || |payload| <= maxRecv)
  {
    hide Base256;
    if Response(s, cap, maxRecv) == Some((payload, rest)) {
      ResponseSays(s, cap, maxRecv, payload, rest);
    }
    if |payload| < cap && (maxRecv == 0 || |payload| <= maxRecv) {
      forall f, path | s == f + rest && IsResponse(f, path, payload) && |path| <= 256
        ensures Response(s, cap, maxRecv) == Some((payload, rest))
      {
        var p, flag, n :|
          && |p| == 2 && Base256(p) == |path|
          && |n| == 4 && Base256(n) == |payload|
          && f == p + path + [flag] + n + payload;
        ResponseRead(s, cap, maxRecv, payload, rest, p, path, flag, n);
      }
    }
  }

  lemma ResponseSays(s: seq<byte>, cap: nat, maxRecv: nat, payload: seq<byte>, rest: seq<byte>)
    requires Response(s, cap, maxRecv) == Some((payload, rest))
    ensures exists f, path :: s == f + rest && IsResponse(f, path, payload) && |path| <= 256
    ensures |payload| < cap && (maxRecv == 0 || |payload| <= maxRecv)
  {
    var p := s[..2];
    var k := Read16(p);
    var path, flag, n := s[2..2 + k], s[2 + k], s[3 + k..7 + k];
    assert s[2..][k + 1..k + 5] == n;
    assert s[2..][k + 5..] == s[k + 7..];
    BigEndian2(p);
    BigEndian4(n);
    hide Base256, Read16, Read32;
    assert s[k + 7..] == payload + rest;
    Pieces(s, k);
    hide Response;
    var f := p + path + [flag] + n + payload;
    assert s == f + rest;
    assert IsResponse(f, path, payload);
  }

  lemma Pieces(s: seq<byte>, k: nat)
    requires |s| >= k + 7
    ensures s == s[..2] + s[2..2 + k] + [s[2 + k]] + s[3 + k..7 + k] + s[k + 7..]
  {
    assert s[..2] + s[2..2 + k] == s[..2 + k];
    assert s[..2 + k] + [s[2 + k]] == s[..3 + k];
    assert s[..3 + k] + s[3 + k..7 + k] == s[..7 + k];
  }

  lemma ResponseRead(
    s: seq<byte>, cap: nat, maxRecv: nat, payload: seq<byte>, rest: seq<byte>,
    p: seq<byte>, path: seq<byte>, flag: byte, n: seq<byte>)
    requires |p| == 2 && Base256(p) == |path| <= 256 && |n| == 4 && Base256(n) == |payload|
    requires s == p + path + [flag] + n + payload + rest
    requires |payload| < cap && (maxRecv == 0 || |payload| <= maxRecv)
    ensures Response(s, cap, maxRecv) == Some((payload, rest))
  {
    BigEndian2(p);
    BigEndian4(n);
    hide Base256, Read16, Read32;
    FrameParts(s, p, path, flag, n, payload, rest);
    var s1 := s[2..];
    assert Response(s, cap, maxRecv) == Some((s1[|path| + 5..][..|payload|], s1[|path| + 5..][|payload|..]));
  }

  lemma FrameParts(s: seq<byte>, p: seq<byte>, path: seq<byte>, flag: byte, n: seq<byte>, payload: seq<byte>, rest: seq<byte>)
    requires |p| == 2 && |n| == 4 && s == p + path + [flag] + n + payload + rest
    ensures |s| == 7 + |path| + |payload| + |rest| && s[..2] == p
    ensures var s1 := s[2..];
            && s1[|path| + 1..|path| + 5] == n
            && s1[|path| + 5..][..|payload|] == payload && s1[|path| + 5..][|payload|..] == rest
  {
    var tail := payload + rest;
    Flat(p, path, [flag], n, tail);
    assert s == p + path + [flag] + n + tail;
    var s1 := path + ([flag] + (n + tail));
    assert s == p + s1;
    assert s[2..] == s1;
    Inside(path, flag, n, tail);
    assert s1[|path| + 5..] == tail;
  }

  lemma Inside(path: seq<byte>, flag: byte, n: seq<byte>, tail: seq<byte>)
    requires |n| == 4
    ensures var s1 := path + ([flag] + (n + tail));
            && |s1| >= |path| + 5
            && s1[|path| + 1..|path| + 5] == n && s1[|path| + 5..] == tail
  {
  }

  lemma HeaderSplits(path: seq<byte>, n: nat, rest: seq<byte>, s: seq<byte>)
    requires |path| < 65536 && s == Header(path, [], n) + rest
    ensures |s| >= 2 && Read16(s[..2]) == |path|
    ensures |s[2..]| >= |path| + 5
    ensures s[2..][|path| + 1..|path| + 5] == BE32(n)
    ensures s[2..][|path| + 5..] == rest
  {
    var t := path + ([0] + BE32(n));
    assert s == BE16(|path|) + (t + rest);
    assert s[..2] == BE16(|path|);
    assert s[2..] == t + rest;
    assert t[|path| + 1..] == BE32(n);
    assert (t + rest)[|path| + 1..|path| + 5] == BE32(n);
  }

  /** One token-free frame reads back as its payload and uses up exactly its bytes, exactly when
      the path is at most 256 bytes and the payload fits 32 bits, the buffer and the limit. */
  lemma FrameRoundTrip(path: seq<byte>, payload: seq<byte>, rest: seq<byte>, cap: nat, maxRecv: nat)
    requires |path| < 65536
    ensures Response(Frame(path, [], payload) + rest, cap, maxRecv) == Some((payload, rest))
            <==> Receivable(path, payload, cap, maxRecv)
  {
    hide BE32, Header, Read16, Read32;
    var s := Frame(path, [], payload) + rest;
    assert s == Header(path, [], |payload|) + (payload + rest);
    HeaderSplits(path, |payload|, payload + rest, s);
    Read32Back(|payload|);
    var n := |payload| % TWO_32;
    var s2 := payload + rest;
    if |path| <= MAX_PATH && n < cap && (maxRecv == 0 || n <= maxRecv) {
      assert Response(s, cap, maxRecv) == Some((s2[..n], s2[n..]));
      if |payload| < TWO_32 {
        assert s2[..n] == payload && s2[n..] == rest;
      } else {
        assert |s2[..n]| < |payload|;
      }
    }
  }

  datatype Request = Request(path: seq<byte>, payload: seq<byte>)

  function Stream(rs: seq<Request>): seq<byte> {
    if rs == [] then [] else Frame(rs[0].path, [], rs[0].payload) + Stream(rs[1..])
  }

  /** The payloads of the next `n` responses, and what follows them. */
  function Responses(s: seq<byte>, n: nat, cap: nat, maxRecv: nat): Option<(seq<seq<byte>>, seq<byte>)>
    decreases n
  {
    if n == 0 then Some(([], s))
    else
      match Response(s, cap, maxRecv)
      case None => None
      case Some((p, t)) =>
        match Responses(t, n - 1, cap, maxRecv)
        case None => None
        case Some((ps, u)) => Some(([p] + ps, u))
  }

  function Payloads(rs: seq<Request>): seq<seq<byte>> {
    if rs == [] then [] else [rs[0].payload] + Payloads(rs[1..])
  }

  /** Any sequence of frames on one connection comes out as the same sequence of payloads, with
      nothing left over or taken from what follows. */
  lemma {:induction false} StreamRoundTrip(rs: seq<Request>, rest: seq<byte>, cap: nat, maxRecv: nat)
    requires forall i :: 0 <= i < |rs| ==> Receivable(rs[i].path, rs[i].payload, cap, maxRecv)
    ensures Responses(Stream(rs) + rest, |rs|, cap, maxRecv) == Some((Payloads(rs), rest))
    decreases |rs|
  {
    hide Response, Frame;
    if rs == [] {
      assert Stream(rs) + rest == rest;
    } else {
      var f, t := Frame(rs[0].path, [], rs[0].payload), Stream(rs[1..]) + rest;
      assert Stream(rs) + rest == f + t;
      assert Receivable(rs[0].path, rs[0].payload, cap, maxRecv);
      FrameRoundTrip(rs[0].path, rs[0].payload, t, cap, maxRecv);
      assert forall i :: 0 <= i < |rs| - 1 ==> rs[1..][i] == rs[i + 1];
      StreamRoundTrip(rs[1..], rest, cap, maxRecv);
    }
  }

  /** Repeated receiving on a connection, whatever sizes the transfers come in. */
  method RecvMany(c: Conn, n: nat, cap: nat, maxRecv: nat) returns (r: Option<seq<seq<byte>>>)
    modifies c`calls, c`arrived
    ensures r.Some? ==> Responses(old(c.arrived), n, cap, maxRecv) == Some((r.value, c.arrived))
    ensures c.Alive() && Responses(old(c.arrived), n, cap, maxRecv).Some? ==> r.Some?
    decreases n
  {
    hide Response;
    if n == 0 { return Some([]); }
    var p := c.RecvResponse(cap, maxRecv);
    if p.None? { return None; }
    var ps := RecvMany(c, n - 1, cap, maxRecv);
    if ps.None? { return None; }
    return Some([p.value] + ps.value);
  }
}
