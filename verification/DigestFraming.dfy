/** The byte string that the tooling policy digest is taken over: length-prefixed paths and payloads. */
module DigestFraming {
  import opened Options

  type Byte = n: nat | n < 256
  type Bytes = seq<Byte>

  datatype Frame = Frame(path: Bytes, payload: Bytes)

  /** 256 to the power `n`. */
  function Power(n: nat): (p: nat)
    ensures p > 0
  {
    if n == 0 then 1 else 256 * Power(n - 1)
  }

  const LENGTH_BYTES: nat := 8
  const LENGTH_LIMIT: nat := 0x1_0000_0000_0000_0000

  /** `value.to_bytes(width, "big")` for a value that fits. */
  function BigEndian(value: nat, width: nat): (r: Bytes)
    ensures |r| == width
  {
    if width == 0 then [] else BigEndian(value / 256, width - 1) + [value % 256]
  }

  /** `int.from_bytes(bytes, "big")`. */
  function FromBigEndian(bytes: Bytes): nat {
    if bytes == [] then 0 else FromBigEndian(bytes[..|bytes| - 1]) * 256 + bytes[|bytes| - 1]
  }

  lemma {:induction false} BigEndianRoundTrip(value: nat, width: nat)
    requires value < Power(width)
    ensures FromBigEndian(BigEndian(value, width)) == value
  {
    if width > 0 {
      var r := BigEndian(value, width);
      QuotientFits(value, Power(width - 1));
      BigEndianRoundTrip(value / 256, width - 1);
      assert r[..|r| - 1] == BigEndian(value / 256, width - 1);
    }
  }

  lemma QuotientFits(value: nat, p: nat)
    requires value < 256 * p
    ensures value / 256 < p
  {
  }

  lemma {:induction false} FromBigEndianBound(bytes: Bytes)
    ensures FromBigEndian(bytes) < Power(|bytes|)
    ensures BigEndian(FromBigEndian(bytes), |bytes|) == bytes
  {
    if bytes != [] {
      FromBigEndianBound(bytes[..|bytes| - 1]);
      var high, low := FromBigEndian(bytes[..|bytes| - 1]), bytes[|bytes| - 1];
      assert (high * 256 + low) / 256 == high && (high * 256 + low) % 256 == low;
    }
  }

  lemma LengthLimit()
    ensures Power(LENGTH_BYTES) == LENGTH_LIMIT
  {
    assert Power(4) == 0x1_0000_0000;
    assert Power(8) == 256 * (256 * (256 * (256 * Power(4))));
  }

  // ---- The framing --------------------------------------------------------------------------------------------

  function Prefixed(bytes: Bytes): Bytes {
    BigEndian(|bytes|, LENGTH_BYTES) + bytes
  }

  function EncodeFrame(frame: Frame): (r: Bytes)
    ensures |r| == 2 * LENGTH_BYTES + |frame.path| + |frame.payload|
  {
    Prefixed(frame.path) + Prefixed(frame.payload)
  }

  function Encode(frames: seq<Frame>): Bytes {
    if frames == [] then [] else EncodeFrame(frames[0]) + Encode(frames[1..])
  }

  predicate FrameFits(frame: Frame) {
    |frame.path| < LENGTH_LIMIT && |frame.payload| < LENGTH_LIMIT
  }

  ghost predicate AllFit(frames: seq<Frame>) {
    forall i :: 0 <= i < |frames| ==> FrameFits(frames[i])
  }

  /** The first length-prefixed piece of a byte string, and what follows it. */
  function TakePiece(bytes: Bytes): (r: Option<(Bytes, Bytes)>)
    ensures r.Some? ==> |r.value.1| + LENGTH_BYTES <= |bytes|
  {
    if |bytes| < LENGTH_BYTES then None else
      var end := LENGTH_BYTES + FromBigEndian(bytes[..LENGTH_BYTES]);
      if |bytes| < end then None else Some((bytes[LENGTH_BYTES..end], bytes[end..]))
  }

  /** Reads frames back. */
  function Decode(bytes: Bytes): Option<seq<Frame>>
    decreases |bytes|
  {
    if bytes == [] then Some([]) else
      var path := TakePiece(bytes);
      if path.None? then None else
        var payload := TakePiece(path.value.1);
        if payload.None? then None else
          var rest := Decode(payload.value.1);
          if rest.None? then None else Some([Frame(path.value.0, payload.value.0)] + rest.value)
  }

  lemma PieceBack(piece: Bytes, rest: Bytes)
    requires |piece| < LENGTH_LIMIT
    ensures TakePiece(Prefixed(piece) + rest) == Some((piece, rest))
  {
    hide BigEndian, FromBigEndian;
    LengthLimit();
    BigEndianRoundTrip(|piece|, LENGTH_BYTES);
    var t := Prefixed(piece) + rest;
    assert t[..LENGTH_BYTES] == BigEndian(|piece|, LENGTH_BYTES);
    assert t[LENGTH_BYTES..LENGTH_BYTES + |piece|] == piece && t[LENGTH_BYTES + |piece|..] == rest;
  }

  /** The decoder inverts the framing. */
  lemma {:induction false} DecodeEncode(frames: seq<Frame>)
    requires AllFit(frames)
    ensures Decode(Encode(frames)) == Some(frames)
  {
    hide TakePiece, Prefixed;
    if frames != [] {
      var frame, rest := frames[0], Encode(frames[1..]);
      assert FrameFits(frame);
      var tail := Prefixed(frame.payload) + rest;
      assert Encode(frames) == Prefixed(frame.path) + tail;
      PieceBack(frame.path, tail);
      PieceBack(frame.payload, rest);
      DecodeEncode(frames[1..]);
      assert frames == [frame] + frames[1..];
    }
  }

  lemma PieceForth(bytes: Bytes)
    requires TakePiece(bytes).Some?
    ensures bytes == Prefixed(TakePiece(bytes).value.0) + TakePiece(bytes).value.1
    ensures |TakePiece(bytes).value.0| < LENGTH_LIMIT
  {
    hide BigEndian, FromBigEndian;
    LengthLimit();
    var head := bytes[..LENGTH_BYTES];
    FromBigEndianBound(head);
    var end := LENGTH_BYTES + FromBigEndian(head);
    assert bytes == head + bytes[LENGTH_BYTES..end] + bytes[end..];
  }

  /** The decoder accepts nothing but framings. */
  lemma {:induction false} EncodeDecode(bytes: Bytes)
    requires Decode(bytes).Some?
    ensures Encode(Decode(bytes).value) == bytes && AllFit(Decode(bytes).value)
    decreases |bytes|
  {
    hide TakePiece, Prefixed;
    if bytes != [] {
      var path := TakePiece(bytes).value;
      var payload := TakePiece(path.1).value;
      PieceForth(bytes);
      PieceForth(path.1);
      EncodeDecode(payload.1);
      var frames := Decode(bytes).value;
      assert frames[1..] == Decode(payload.1).value;
      assert bytes == Prefixed(path.0) + (Prefixed(payload.0) + payload.1);
    }
  }

  /** Different frames never give the same byte string. */
  lemma EncodeInjective(a: seq<Frame>, b: seq<Frame>)
    requires AllFit(a) && AllFit(b) && Encode(a) == Encode(b)
    ensures a == b
  {
    DecodeEncode(a);
    DecodeEncode(b);
  }

  lemma {:induction false} EncodeMore(frames: seq<Frame>, frame: Frame)
    ensures Encode(frames + [frame]) == Encode(frames) + EncodeFrame(frame)
  {
    hide EncodeFrame;
    if frames == [] {
      assert frames + [frame] == [frame];
      assert Encode([frame]) == EncodeFrame(frame) + Encode([frame][1..]);
    } else {
      assert (frames + [frame])[1..] == frames[1..] + [frame];
      EncodeMore(frames[1..], frame);
    }
  }

  // ---- The digest ---------------------------------------------------------------------------------------------

  /** A digest object: what was fed to it so far. */
  class Digest {
    var fed: Bytes

    constructor ()
      ensures fed == []
    {
      fed := [];
    }

    method Update(bytes: Bytes)
      modifies this
      ensures fed == old(fed) + bytes
    {
      fed := fed + bytes;
    }
  }

  /** A Python authority: its path and, when it is a regular file, its bytes. */
  datatype Authority = Authority(path: Bytes, content: Option<Bytes>)

  /** The frames of the files that exist. */
  function Present(authorities: seq<Authority>): seq<Frame> {
    if authorities == [] then [] else
      var k := |authorities| - 1;
      Present(authorities[..k]) +
      if authorities[k].content.Some? then [Frame(authorities[k].path, authorities[k].content.value)] else []
  }

  /** One frame of the loops, or nothing when a length does not fit eight bytes. */
  method Feed(digest: Digest, frame: Frame) returns (ok: bool)
    modifies digest
    ensures ok == FrameFits(frame)
    ensures ok ==> digest.fed == old(digest.fed) + EncodeFrame(frame)
  {
    if !(|frame.path| < LENGTH_LIMIT) {
      return false;
    }
    digest.Update(BigEndian(|frame.path|, LENGTH_BYTES));
    digest.Update(frame.path);
    if !(|frame.payload| < LENGTH_LIMIT) {
      return false;
    }
    digest.Update(BigEndian(|frame.payload|, LENGTH_BYTES));
    digest.Update(frame.payload);
    return true;
  }

  /** `tooling_policy_sha256`, with the hash function as a parameter; no result stands for the overflow error. */
  method ToolingPolicySha256(schemas: seq<Frame>, authorities: seq<Authority>, hash: Bytes -> string)
    returns (result: Option<string>)
    ensures result.Some? <==> AllFit(schemas + Present(authorities))
    ensures result.Some? ==> result.value == hash(Encode(schemas + Present(authorities)))
  {
    hide Encode, EncodeFrame, FrameFits;
    EncodeNothing();
    var digest := new Digest();
    for k := 0 to |schemas|
      invariant AllFit(schemas[..k]) && digest.fed == Encode(schemas[..k])
      invariant fresh(digest)
    {
      assert schemas[..k + 1] == schemas[..k] + [schemas[k]];
      EncodeMore(schemas[..k], schemas[k]);
      var ok := Feed(digest, schemas[k]);
      if !ok {
        assert !FrameFits((schemas + Present(authorities))[k]);
        return None;
      }
    }
    assert schemas[..|schemas|] == schemas;
    assert schemas + [] == schemas;
    for k := 0 to |authorities|
      invariant var frames := schemas + Present(authorities[..k]);
                AllFit(frames) && digest.fed == Encode(frames)
      invariant fresh(digest)
    {
      assert authorities[..k + 1][..k] == authorities[..k];
      var frames := schemas + Present(authorities[..k]);
      if authorities[k].content.Some? {
        var frame := Frame(authorities[k].path, authorities[k].content.value);
        EncodeMore(frames, frame);
        var ok := Feed(digest, frame);
        PresentPrefix(authorities, k + 1);
        assert schemas + Present(authorities[..k + 1]) == frames + [frame];
        if !ok {
          assert !FrameFits((schemas + Present(authorities))[|frames|]);
          return None;
        }
      } else {
        assert Present(authorities[..k + 1]) == Present(authorities[..k]);
      }
    }
    assert authorities[..|authorities|] == authorities;
    return Some(hash(digest.fed));
  }

  lemma EncodeNothing()
    ensures Encode([]) == []
  {
  }

  lemma {:induction false} PresentPrefix(authorities: seq<Authority>, k: nat)
    requires k <= |authorities|
    ensures Present(authorities[..k]) <= Present(authorities)
    decreases |authorities| - k
  {
    if k < |authorities| {
      assert authorities[..k + 1][..k] == authorities[..k];
      PresentPrefix(authorities, k + 1);
    } else {
      assert authorities[..k] == authorities;
    }
  }

  // ---- What the bytes decide ----------------------------------------------------------------------------------

  ghost predicate SamePaths(a: seq<Authority>, b: seq<Authority>) {
    |a| == |b| && forall i :: 0 <= i < |a| ==> a[i].path == b[i].path
  }

  ghost predicate DistinctPaths(a: seq<Authority>) {
    forall i, j :: 0 <= i < j < |a| ==> a[i].path != a[j].path
  }

  lemma {:induction false} PresentOrigin(authorities: seq<Authority>, i: nat)
    requires i < |Present(authorities)|
    ensures exists k :: 0 <= k < |authorities| && authorities[k].path == Present(authorities)[i].path
  {
    var k := |authorities| - 1;
    if i < |Present(authorities[..k])| {
      PresentOrigin(authorities[..k], i);
      var j :| 0 <= j < k && authorities[..k][j].path == Present(authorities)[i].path;
      assert authorities[j].path == Present(authorities)[i].path;
    } else {
      assert authorities[k].path == Present(authorities)[i].path;
    }
  }

  /** The last frame belongs to the last authority exactly when that one is present. */
  lemma LastPresent(a: seq<Authority>)
    requires a != [] && DistinctPaths(a)
    ensures var k := |a| - 1;
            a[k].content.Some? <==>
              Present(a) != [] && Present(a)[|Present(a)| - 1].path == a[k].path
  {
    var k := |a| - 1;
    var n := |Present(a)|;
    if a[k].content.None? && n > 0 {
      PresentOrigin(a[..k], n - 1);
      var j :| 0 <= j < k && a[..k][j].path == Present(a[..k])[n - 1].path;
      assert a[j].path == Present(a)[n - 1].path;
    }
  }

  /** Over one list of distinct paths the frames tell which files exist and what they hold. */
  lemma {:induction false} PresentInjective(a: seq<Authority>, b: seq<Authority>)
    requires SamePaths(a, b) && DistinctPaths(a) && Present(a) == Present(b)
    ensures a == b
  {
    if a != [] {
      var k := |a| - 1;
      LastPresent(a);
      LastPresent(b);
      assert a[k].path == b[k].path;
      if a[k].content.Some? {
        var n := |Present(a)| - 1;
        assert Present(a[..k]) == Present(a)[..n] && Present(b[..k]) == Present(b)[..n];
        assert Present(a)[n].payload == a[k].content.value && Present(b)[n].payload == b[k].content.value;
      } else {
        assert Present(a[..k]) == Present(a) && Present(b[..k]) == Present(b);
      }
      PresentInjective(a[..k], b[..k]);
      assert a == a[..k] + [a[k]] && b == b[..k] + [b[k]];
    }
  }

  /**
   With the path lists fixed, the bytes fed to the digest decide every schema payload and, for every Python authority,
   whether it exists and what it holds.
   */
  lemma PreimageDecides(s: seq<Frame>, t: seq<Frame>, a: seq<Authority>, b: seq<Authority>)
    requires |s| == |t| && SamePaths(a, b) && DistinctPaths(a)
    requires AllFit(s + Present(a)) && AllFit(t + Present(b))
    requires Encode(s + Present(a)) == Encode(t + Present(b))
    ensures s == t && a == b
  {
    hide Encode, Present;
    EncodeInjective(s + Present(a), t + Present(b));
    assert (s + Present(a))[..|s|] == s && (t + Present(b))[..|t|] == t;
    assert (s + Present(a))[|s|..] == Present(a) && (t + Present(b))[|t|..] == Present(b);
    PresentInjective(a, b);
  }
}
