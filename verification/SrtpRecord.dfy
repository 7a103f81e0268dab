/**
  SRTP packet protection: encrypt, then MAC, over a buffer in which the payload
  is a part of the authenticated bytes (section 3.3 of RFC 3711).
 */
module SrtpRecord {
  import opened Errno
  import opened RecordCrypto

  const MAX_AUTH_DATA_DIFF := 256

  /** The distance of two user addresses, cut down to a 32-bit int. */
  function Diff(authAddr: nat, srcAddr: nat): (d: int)
    ensures -0x8000_0000 <= d < 0x8000_0000
  {
    var low := (srcAddr - authAddr) % 0x1_0000_0000;
    if low < 0x8000_0000 then low else low - 0x1_0000_0000
  }

  /** The overlap rule of get_userbuf_srtp, on the two user addresses. */
  function CheckOverlap(authAddr: nat, srcAddr: nat, dstLen: nat, authLen: nat): int {
    if dstLen == 0 || authLen == 0 then -EINVAL
    else if Diff(authAddr, srcAddr) > MAX_AUTH_DATA_DIFF || Diff(authAddr, srcAddr) < 0 then -EINVAL
    else 0
  }

  /** For addresses less than 2^31 apart the rule is the overlap it announces;
      but it sees distances only modulo 2^32, so it also passes addresses that
      are that far apart and do not overlap. */
  lemma OverlapRule(authAddr: nat, srcAddr: nat, wraps: nat, dstLen: nat, authLen: nat)
    ensures CheckOverlap(authAddr, srcAddr, dstLen, authLen) in {0, -EINVAL}
    ensures dstLen == 0 || authLen == 0 ==> CheckOverlap(authAddr, srcAddr, dstLen, authLen) == -EINVAL
    ensures dstLen > 0 && authLen > 0 && -0x8000_0000 <= srcAddr - authAddr < 0x8000_0000 ==>
              (CheckOverlap(authAddr, srcAddr, dstLen, authLen) == 0 <==> authAddr <= srcAddr <= authAddr + 256)
    ensures CheckOverlap(authAddr, srcAddr + wraps * 0x1_0000_0000, dstLen, authLen)
            == CheckOverlap(authAddr, srcAddr, dstLen, authLen)
  {
    var d := srcAddr - authAddr;
    assert (d + wraps * 0x1_0000_0000) % 0x1_0000_0000 == d % 0x1_0000_0000;
  }

  /** The authenticated buffer with its payload replaced. */
  function Splice(buf: seq<byte>, diff: nat, payload: seq<byte>): (r: seq<byte>)
    requires diff + |payload| <= |buf|
    ensures |r| == |buf|
  {
    buf[..diff] + payload + buf[diff + |payload|..]
  }

  datatype Result = Accepted(buf: seq<byte>, tag: seq<byte>) | Rejected(code: int)

  /** Encrypt the payload, then authenticate the whole buffer as it now stands. */
  function Seal(ses: Session, buf: seq<byte>, diff: nat, len: nat, tagLen: nat): Result
    requires Lawful(ses) && diff + len <= |buf|
  {
    var payload := if ses.cipherInit then ses.encrypt(buf[diff..diff + len]) else Done(buf[diff..diff + len]);
    if payload.Failed? then Rejected(payload.code)
    else
      var out := Splice(buf, diff, payload.bytes);
      if !ses.hashInit then Accepted(out, [])
      else
        match ses.mac(out)
        case Failed(code) => Rejected(code)
        case Done(digest) => Accepted(out, if tagLen <= |digest| then digest[..tagLen] else digest)
  }

  /** Verify the tag over the buffer as received, and only then decrypt. */
  function Open(ses: Session, buf: seq<byte>, diff: nat, len: nat, tag: seq<byte>): Result
    requires Lawful(ses) && diff + len <= |buf|
  {
    var code := TagCheck(ses, buf, len, tag);
    if code != 0 then Rejected(code)
    else if !ses.cipherInit then Accepted(buf, tag)
    else
      match ses.decrypt(buf[diff..diff + len])
      case Failed(c) => Rejected(c)
      case Done(payload) => Accepted(Splice(buf, diff, payload), tag)
  }

  function TagCheck(ses: Session, buf: seq<byte>, len: nat, tag: seq<byte>): int {
    if !ses.hashInit then 0
    else if |tag| > MAX_RESULT_LEN || |tag| > len then -EINVAL
    else
      match ses.mac(buf)
      case Failed(c) => c
      case Done(digest) => if |tag| <= |digest| && digest[..|tag|] == tag then 0 else -EBADMSG
  }

  /** A sealed packet opens to the original buffer, byte for byte, if and only
      if the tag is no longer than the payload. Sealing itself does not check. */
  lemma SealThenOpenIff(ses: Session, buf: seq<byte>, diff: nat, len: nat, tagLen: nat)
    requires Lawful(ses) && diff + len <= |buf| && (ses.hashInit ==> tagLen <= ses.digestSize)
    requires Seal(ses, buf, diff, len, tagLen).Accepted?
    ensures var s := Seal(ses, buf, diff, len, tagLen);
            Open(ses, s.buf, diff, len, s.tag) == Accepted(buf, s.tag) <==> (ses.hashInit ==> tagLen <= len)
  {
    var s := Seal(ses, buf, diff, len, tagLen);
    var plain := buf[diff..diff + len];
    var payload := if ses.cipherInit then ses.encrypt(plain).bytes else plain;
    SpliceBack(buf, diff, payload);
    if ses.hashInit { assert ses.mac(s.buf).Done? && |s.tag| == tagLen; }
  }

  /** What was spliced in can be read, and replaced by what was there. */
  lemma SpliceBack(buf: seq<byte>, diff: nat, payload: seq<byte>)
    requires diff + |payload| <= |buf|
    ensures var out := Splice(buf, diff, payload);
            && out[diff..diff + |payload|] == payload
            && Splice(out, diff, buf[diff..diff + |payload|]) == buf
            && (payload == buf[diff..diff + |payload|] ==> out == buf)
  {
  }

  /** `out` is `buf` with `payload` in the payload range, and nothing else. */
  ghost predicate Replaces(buf: seq<byte>, out: seq<byte>, diff: nat, payload: seq<byte>) {
    && diff + |payload| <= |buf| == |out|
    && forall i :: 0 <= i < |buf| ==> out[i] == if diff <= i < diff + |payload| then payload[i - diff] else buf[i]
  }

  lemma ReplacesIsSplice(buf: seq<byte>, out: seq<byte>, diff: nat, payload: seq<byte>)
    requires diff + |payload| <= |buf|
    ensures Replaces(buf, out, diff, payload) <==> out == Splice(buf, diff, payload)
  {
    assert Replaces(buf, Splice(buf, diff, payload), diff, payload);
  }

  /** Sealing is accepted, with buffer `out` and `tag`, if and only if `out` is the
      buffer with the payload through the cipher, and `tag` is the front of the MAC
      over `out`; the primitives did not fail. */
  lemma SealsExactly(ses: Session, buf: seq<byte>, diff: nat, len: nat, tagLen: nat, out: seq<byte>, tag: seq<byte>)
    requires Lawful(ses) && diff + len <= |buf| && (ses.hashInit ==> tagLen <= ses.digestSize)
    ensures Seal(ses, buf, diff, len, tagLen) == Accepted(out, tag) <==>
            var plain := buf[diff..diff + len];
            && (if ses.cipherInit then ses.encrypt(plain).Done? && Replaces(buf, out, diff, ses.encrypt(plain).bytes)
                else out == buf)
            && (if ses.hashInit then ses.mac(out).Done? && |tag| == tagLen && ses.mac(out).bytes[..tagLen] == tag
                else tag == [])
  {
    var plain := buf[diff..diff + len];
    var payload := if ses.cipherInit then ses.encrypt(plain) else Done(plain);
    if payload.Done? {
      ReplacesIsSplice(buf, out, diff, payload.bytes);
      SpliceBack(buf, diff, payload.bytes);
    }
  }

  /** What sealing says when a primitive fails: the code of the cipher, or else
      that of the hash over the buffer with the payload through the cipher. */
  lemma SealRefuses(ses: Session, buf: seq<byte>, diff: nat, len: nat, tagLen: nat, out: seq<byte>)
    requires Lawful(ses) && diff + len <= |buf|
    ensures var plain := buf[diff..diff + len];
            if ses.cipherInit && ses.encrypt(plain).Failed? then
              Seal(ses, buf, diff, len, tagLen) == Rejected(ses.encrypt(plain).code)
            else
              ses.hashInit && ses.mac(out).Failed?
              && (if ses.cipherInit then Replaces(buf, out, diff, ses.encrypt(plain).bytes) else out == buf) ==>
              Seal(ses, buf, diff, len, tagLen) == Rejected(ses.mac(out).code)
  {
    var plain := buf[diff..diff + len];
    var payload := if ses.cipherInit then ses.encrypt(plain) else Done(plain);
    if payload.Done? {
      ReplacesIsSplice(buf, out, diff, payload.bytes);
      SpliceBack(buf, diff, payload.bytes);
    }
  }

  /** The tag is that of the bytes received. */
  ghost predicate Authentic(ses: Session, buf: seq<byte>, len: nat, tag: seq<byte>)
    requires Lawful(ses)
  {
    ses.hashInit ==>
      |tag| <= len && |tag| <= ses.digestSize && ses.mac(buf).Done? && ses.mac(buf).bytes[..|tag|] == tag
  }

  /** A packet is accepted if and only if its tag is that of the bytes received
      and the payload comes through the cipher; the payload range then holds what
      the cipher yields, and nothing else has changed. */
  lemma OpensExactly(ses: Session, buf: seq<byte>, diff: nat, len: nat, tag: seq<byte>, out: seq<byte>)
    requires Lawful(ses) && diff + len <= |buf|
    ensures Open(ses, buf, diff, len, tag) == Accepted(out, tag) <==>
            var cipher := buf[diff..diff + len];
            && Authentic(ses, buf, len, tag)
            && (if ses.cipherInit then ses.decrypt(cipher).Done? && Replaces(buf, out, diff, ses.decrypt(cipher).bytes)
                else out == buf)
  {
    var payload := ses.decrypt(buf[diff..diff + len]);
    if ses.cipherInit && payload.Done? { ReplacesIsSplice(buf, out, diff, payload.bytes); }
  }

  /** The codes of a refusal: -EINVAL for a tag longer than the payload, that of
      the hash, -EBADMSG for a tag that is not the MAC's, that of the cipher. */
  lemma OpenRefuses(ses: Session, buf: seq<byte>, diff: nat, len: nat, tag: seq<byte>)
    requires Lawful(ses) && diff + len <= |buf| && (ses.hashInit ==> |tag| <= ses.digestSize)
    ensures var r := Open(ses, buf, diff, len, tag);
            if ses.hashInit && |tag| > len then r == Rejected(-EINVAL)
            else if ses.hashInit && ses.mac(buf).Failed? then r == Rejected(ses.mac(buf).code)
            else if ses.hashInit && ses.mac(buf).bytes[..|tag|] != tag then r == Rejected(-EBADMSG)
            else if ses.cipherInit && ses.decrypt(buf[diff..diff + len]).Failed? then
              r == Rejected(ses.decrypt(buf[diff..diff + len]).code)
            else r.Accepted?
  {
  }

  /** Any packet accepted under a hash carries a tag over exactly the bytes
      received, and only the payload range differs from them. */
  lemma AcceptedIsAuthentic(ses: Session, buf: seq<byte>, diff: nat, len: nat, tag: seq<byte>)
    requires Lawful(ses) && diff + len <= |buf| && ses.hashInit
    requires Open(ses, buf, diff, len, tag).Accepted?
    ensures |tag| <= len && |tag| <= ses.digestSize && ses.mac(buf).Done? && ses.mac(buf).bytes[..|tag|] == tag
    ensures var r := Open(ses, buf, diff, len, tag).buf;
            |r| == |buf| && r[..diff] == buf[..diff] && r[diff + len..] == buf[diff + len..]
  {
  }

  // ----- the code, in place -----

  /** srtp_auth_n_crypt, encrypting, behind the overlap rule: the payload starts
      at most 256 bytes into the authenticated buffer. */
  method Encrypt(ses: Session, buf: array<byte>, authAddr: nat, srcAddr: nat, len: nat, tagLen: nat)
    returns (ret: int, tag: seq<byte>)
    requires Lawful(ses) && tagLen <= ses.digestSize
    requires CheckOverlap(authAddr, srcAddr, len + tagLen, buf.Length) == 0 ==>
        Diff(authAddr, srcAddr) + len <= buf.Length
    modifies buf
    ensures if CheckOverlap(authAddr, srcAddr, len + tagLen, buf.Length) != 0 then ret == -EINVAL
        && buf[..] == old(buf[..])
            else
              var r := Seal(ses, old(buf[..]), Diff(authAddr, srcAddr), len, tagLen);
              if r.Rejected? then ret == r.code && ret != 0 else ret == 0 && buf[..] == r.buf && tag == r.tag
  {
    tag := [];
    ret := CheckOverlap(authAddr, srcAddr, len + tagLen, buf.Length);
    if ret != 0 { return; }
    var diff := Diff(authAddr, srcAddr);
    if ses.cipherInit {
      var payload := ses.encrypt(buf[diff..diff + len]);
      if payload.Failed? { return payload.code, tag; }
      Store(buf, diff, payload.bytes);
    }
    assert buf[..] == Splice(old(buf[..]), diff, buf[diff..diff + len]);
    if ses.hashInit {
      var digest := ses.mac(buf[..]);
      if digest.Failed? { return digest.code, tag; }
      tag := digest.bytes[..tagLen];
    }
  }

  /** srtp_auth_n_crypt, decrypting. A packet whose addresses or tag are refused
      is left exactly as it came. */
  method Decrypt(ses: Session, buf: array<byte>, authAddr: nat, srcAddr: nat, len: nat, tag: seq<byte>)
      returns (ret: int)
    requires Lawful(ses) && |tag| <= ses.digestSize
    requires CheckOverlap(authAddr, srcAddr, len, buf.Length) == 0 ==> Diff(authAddr, srcAddr) + len <= buf.Length
    modifies buf
    ensures if CheckOverlap(authAddr, srcAddr, len, buf.Length) != 0 then ret == -EINVAL && buf[..] == old(buf[..])
            else
              var r := Open(ses, old(buf[..]), Diff(authAddr, srcAddr), len, tag);
              if r.Rejected? then ret == r.code && ret != 0 && buf[..] == old(buf[..]) else ret == 0 && buf[..] == r.buf
  {
    ret := CheckOverlap(authAddr, srcAddr, len, buf.Length);
    if ret != 0 { return; }
    var diff := Diff(authAddr, srcAddr);
    if ses.hashInit {
      if |tag| > MAX_RESULT_LEN || |tag| > len { return -EINVAL; }
      var digest := ses.mac(buf[..]);
      if digest.Failed? { return digest.code; }
      if digest.bytes[..|tag|] != tag { return -EBADMSG; }
    }
    if ses.cipherInit {
      var payload := ses.decrypt(buf[diff..diff + len]);
      if payload.Failed? { return payload.code; }
      Store(buf, diff, payload.bytes);
      assert buf[..] == Splice(old(buf[..]), diff, payload.bytes);
    }
    ret := 0;
  }
}
