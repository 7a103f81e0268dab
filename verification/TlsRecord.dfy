/**
  TLS record protection: MAC, then pad, then encrypt, in place in the caller's
  buffer (section 6.2.3.2 of RFC 5246).
 */
module TlsRecord {
  import opened Errno
  import opened RecordCrypto
  import opened DivMod

  // ----- what a record is -----

  /** `n` bytes are padded to the next multiple of the block size, always by at
      least one byte; every padding byte says how many follow it. */
  function PadSize(n: nat, blockSize: nat): (p: nat)
    requires blockSize > 0
    ensures 1 <= p <= blockSize
  {
    blockSize - n % blockSize
  }

  function Repeat(b: byte, n: nat): (s: seq<byte>)
    ensures |s| == n
  {
    seq(n, _ => b)
  }

  function Padded(data: seq<byte>, blockSize: nat): seq<byte>
    requires 1 <= blockSize <= 256
  {
    data + Padding(PadSize(|data|, blockSize) - 1)
  }

  /** A complete padding: `p` repeated p + 1 times. */
  function Padding(p: byte): seq<byte> { Repeat(p, p as nat + 1) }

  /** The last byte `p` and the `p` bytes before it are all `p`. */
  predicate PadOk(s: seq<byte>) {
    s != [] &&
    var p := s[|s| - 1];
    p + 1 <= |s| && forall i :: |s| - p - 1 <= i < |s| ==> s[i] == p
  }

  function Stripped(s: seq<byte>): seq<byte>
    requires PadOk(s)
  {
    s[..|s| - s[|s| - 1] - 1]
  }

  /** Encryption: the protected bytes, or the error of the primitive that failed. */
  function Seal(ses: Session, auth: seq<byte>, data: seq<byte>, tagLen: nat): Outcome
    requires 1 <= ses.blockSize <= 256
  {
    var tagged := Tagged(ses, auth, data, tagLen);
    if tagged.Failed? then tagged
    else if !ses.cipherInit then tagged
    else ses.encrypt(if ses.blockSize > 1 then Padded(tagged.bytes, ses.blockSize) else tagged.bytes)
  }

  function Tagged(ses: Session, auth: seq<byte>, data: seq<byte>, tagLen: nat): Outcome {
    if !ses.hashInit then Done(data)
    else
      match ses.mac(auth + data)
      case Failed(code) => Failed(code)
      case Done(digest) => Done(data + Prefix(digest, tagLen))
  }

  function Prefix(s: seq<byte>, n: nat): seq<byte> {
    if n <= |s| then s[..n] else s
  }

  /** Decryption: the plaintext, or an error code. */
  function Open(ses: Session, auth: seq<byte>, data: seq<byte>, tagLen: nat): Outcome {
    if !ses.cipherInit then CheckTag(ses, auth, data, false, tagLen)
    else
      match ses.decrypt(data)
      case Failed(code) => Failed(code)
      case Done(plain) =>
        if ses.blockSize <= 1 then CheckTag(ses, auth, plain, false, tagLen)
        else if PadOk(plain) then CheckTag(ses, auth, Stripped(plain), false, tagLen)
        else CheckTag(ses, auth, plain, true, tagLen)
  }

  function CheckTag(ses: Session, auth: seq<byte>, rest: seq<byte>, badPad: bool, tagLen: nat): Outcome {
    if !ses.hashInit then Done(rest)
    else if tagLen > MAX_RESULT_LEN || tagLen > |rest| then Failed(-EINVAL)
    else
      var n := |rest| - tagLen;
      match ses.mac(auth + rest[..n])
      case Failed(code) => Failed(code)
      case Done(digest) =>
        if Prefix(digest, tagLen) != rest[n..] || badPad then Failed(-EBADMSG) else Done(rest[..n])
  }

  // ----- acceptance is exact -----

  /** The bytes behind the cipher, or the input itself when there is none. */
  function Deciphered(ses: Session, data: seq<byte>): Outcome {
    if ses.cipherInit then ses.decrypt(data) else Done(data)
  }

  /** What follows the tag: a padding exactly when a block cipher is active. */
  ghost predicate IsTrailer(ses: Session, pad: seq<byte>) {
    if ses.cipherInit && ses.blockSize > 1 then exists p: byte :: pad == Padding(p) else pad == []
  }

  /** `plain` is P, a tag over auth and P, and what follows the tag. */
  ghost predicate IsRecordWith(
    ses: Session, auth: seq<byte>, plain: seq<byte>, P: seq<byte>, tag: seq<byte>, pad: seq<byte>)
  {
    && plain == P + tag + pad && IsTrailer(ses, pad)
    && ses.mac(auth + P).Done?
    && tag == Prefix(ses.mac(auth + P).bytes, |tag|)
  }

  ghost predicate IsRecord(ses: Session, auth: seq<byte>, plain: seq<byte>, tagLen: nat, P: seq<byte>) {
    exists tag: seq<byte>, pad: seq<byte> :: |tag| == tagLen && IsRecordWith(ses, auth, plain, P, tag, pad)
  }

  lemma PadIsUnique(rest: seq<byte>, p: byte)
    ensures PadOk(rest + Padding(p)) && Stripped(rest + Padding(p)) == rest
  {
    var s := rest + Padding(p);
    assert s[|s| - 1] == p;
  }

  lemma StrippedThenPad(s: seq<byte>)
    requires PadOk(s)
    ensures var p := s[|s| - 1]; s == Stripped(s) + Padding(p)
  {
  }

  /** A sound trailer is cut off, and nothing else. */
  lemma TrailerIsCut(ses: Session, auth: seq<byte>, data: seq<byte>, tagLen: nat, rest: seq<byte>, pad: seq<byte>)
    requires Deciphered(ses, data) == Done(rest + pad) && IsTrailer(ses, pad)
    ensures Open(ses, auth, data, tagLen) == CheckTag(ses, auth, rest, false, tagLen)
  {
    if ses.cipherInit && ses.blockSize > 1 {
      var p: byte :| pad == Padding(p);
      PadIsUnique(rest, p);
    } else {
      assert rest + pad == rest;
    }
  }

  /** A trailer is sound, or it is a padding that is not. */
  lemma TrailerOf(ses: Session, plain: seq<byte>) returns (rest: seq<byte>, pad: seq<byte>)
    requires ses.cipherInit && ses.blockSize > 1 ==> PadOk(plain)
    ensures plain == rest + pad && IsTrailer(ses, pad)
  {
    if ses.cipherInit && ses.blockSize > 1 {
      StrippedThenPad(plain);
      rest, pad := Stripped(plain), Padding(plain[|plain| - 1]);
    } else {
      rest, pad := plain, [];
    }
  }

  /** A checked tag is the end of what was checked. */
  lemma CheckedTag(ses: Session, auth: seq<byte>, rest: seq<byte>, tagLen: nat, P: seq<byte>)
    requires ses.hashInit && CheckTag(ses, auth, rest, false, tagLen) == Done(P)
    ensures |P| + tagLen == |rest| && rest == P + rest[|P|..]
    ensures ses.mac(auth + P).Done? && rest[|P|..] == Prefix(ses.mac(auth + P).bytes, tagLen)
  {
  }

  lemma AcceptedIsRecord(ses: Session, auth: seq<byte>, data: seq<byte>, tagLen: nat, P: seq<byte>)
    requires ses.hashInit && Open(ses, auth, data, tagLen) == Done(P)
    ensures Deciphered(ses, data).Done? && IsRecord(ses, auth, Deciphered(ses, data).bytes, tagLen, P)
  {
    var plain := Deciphered(ses, data).bytes;
    var rest, pad := TrailerOf(ses, plain);
    TrailerIsCut(ses, auth, data, tagLen, rest, pad);
    CheckedTag(ses, auth, rest, tagLen, P);
    assert IsRecordWith(ses, auth, plain, P, rest[|P|..], pad);
  }

  lemma RecordIsAccepted(ses: Session, auth: seq<byte>, data: seq<byte>, P: seq<byte>, tag: seq<byte>, pad: seq<byte>)
    requires Lawful(ses) && ses.hashInit && |tag| <= ses.digestSize && Deciphered(ses, data).Done?
    requires IsRecordWith(ses, auth, Deciphered(ses, data).bytes, P, tag, pad)
    ensures Open(ses, auth, data, |tag|) == Done(P)
  {
    TrailerIsCut(ses, auth, data, |tag|, P + tag, pad);
    assert (P + tag)[..|P|] == P && (P + tag)[|P|..] == tag;
  }

  /** With a hash, whatever the cipher, decryption accepts with plaintext P if and
      only if what the cipher yields is a record of P. */
  lemma AcceptsExactlyRecords(ses: Session, auth: seq<byte>, data: seq<byte>, tagLen: nat, P: seq<byte>)
    requires Lawful(ses) && ses.hashInit && tagLen <= ses.digestSize
    ensures Open(ses, auth, data, tagLen) == Done(P) <==>
            Deciphered(ses, data).Done? && IsRecord(ses, auth, Deciphered(ses, data).bytes, tagLen, P)
  {
    if Open(ses, auth, data, tagLen) == Done(P) { AcceptedIsRecord(ses, auth, data, tagLen, P); }
    if Deciphered(ses, data).Done? && IsRecord(ses, auth, Deciphered(ses, data).bytes, tagLen, P) {
      var tag: seq<byte>, pad: seq<byte> :|
        |tag| == tagLen && IsRecordWith(ses, auth, Deciphered(ses, data).bytes, P, tag, pad);
      RecordIsAccepted(ses, auth, data, P, tag, pad);
    }
  }

  /** The codes of a refusal with a hash: that of the cipher; -EINVAL for a record
      too short for its tag; that of the hash; -EBADMSG for a wrong tag. */
  lemma RefusalCodes(ses: Session, auth: seq<byte>, data: seq<byte>, tagLen: nat, P: seq<byte>, tag: seq<byte>,
                     pad: seq<byte>)
    requires Lawful(ses) && ses.hashInit && tagLen <= ses.digestSize && IsTrailer(ses, pad)
    ensures Deciphered(ses, data).Failed? ==> Open(ses, auth, data, tagLen) == Deciphered(ses, data)
    ensures Deciphered(ses, data) == Done(P + pad) && |P| < tagLen ==> Open(ses, auth, data, tagLen) == Failed(-EINVAL)
    ensures Deciphered(ses, data) == Done(P + tag + pad) && |tag| == tagLen ==>
              && (ses.mac(auth + P).Failed? ==> Open(ses, auth, data, tagLen) == ses.mac(auth + P))
              && (ses.mac(auth + P).Done? && tag != Prefix(ses.mac(auth + P).bytes, tagLen) ==>
                    Open(ses, auth, data, tagLen) == Failed(-EBADMSG))
  {
    if Deciphered(ses, data) == Done(P + pad) { TrailerIsCut(ses, auth, data, tagLen, P, pad); }
    if Deciphered(ses, data) == Done(P + tag + pad) {
      TrailerIsCut(ses, auth, data, tagLen, P + tag, pad);
      assert |tag| == tagLen ==> (P + tag)[..|P|] == P && (P + tag)[|P|..] == tag;
    }
  }

  /** A padding that is not sound, with a hash: the MAC is computed all the same,
      over everything before the place of a tag, and then -EBADMSG. */
  lemma BadPadCode(ses: Session, auth: seq<byte>, data: seq<byte>, tagLen: nat)
    requires Lawful(ses) && ses.hashInit && tagLen <= ses.digestSize && ses.cipherInit && ses.blockSize > 1
    requires ses.decrypt(data).Done? && forall rest, p :: ses.decrypt(data).bytes != rest + Padding(p)
    ensures var plain := ses.decrypt(data).bytes;
            Open(ses, auth, data, tagLen) ==
            if |plain| < tagLen then Failed(-EINVAL)
            else if ses.mac(auth + plain[..|plain| - tagLen]).Failed? then ses.mac(auth + plain[..|plain| - tagLen])
            else Failed(-EBADMSG)
  {
    var plain := ses.decrypt(data).bytes;
    if PadOk(plain) {
      StrippedThenPad(plain);
    }
  }

  /** Without a hash only a sound trailer is cut off; a bad padding stays in the
      plaintext. */
  lemma OpensWithoutHash(ses: Session, auth: seq<byte>, data: seq<byte>, tagLen: nat, P: seq<byte>)
    requires Lawful(ses) && !ses.hashInit
    ensures Open(ses, auth, data, tagLen) == Done(P) <==>
            var d := Deciphered(ses, data);
            d.Done? && ((exists pad :: d.bytes == P + pad && IsTrailer(ses, pad))
                        || (d.bytes == P && forall rest, pad :: IsTrailer(ses, pad) ==> P != rest + pad))
  {
    var d := Deciphered(ses, data);
    if d.Done? {
      if ses.cipherInit && ses.blockSize > 1 && !PadOk(d.bytes) {
        forall rest, pad | IsTrailer(ses, pad) ensures d.bytes != rest + pad {
          var p: byte :| pad == Padding(p);
          PadIsUnique(rest, p);
        }
      } else {
        var rest, pad := TrailerOf(ses, d.bytes);
        TrailerIsCut(ses, auth, data, tagLen, rest, pad);
        if pad' :| d.bytes == P + pad' && IsTrailer(ses, pad') {
          TrailerIsCut(ses, auth, data, tagLen, P, pad');
        }
      }
    }
  }

  /** A bad padding ends in success if and only if no hash is active. */
  lemma BadPadAcceptedIff(ses: Session, auth: seq<byte>, data: seq<byte>, tagLen: nat)
    requires Lawful(ses) && ses.cipherInit && ses.blockSize > 1
    requires ses.decrypt(data).Done? && !PadOk(ses.decrypt(data).bytes)
    ensures Open(ses, auth, data, tagLen).Done? <==> !ses.hashInit
  {
  }

  // ----- round trip and length -----

  lemma PaddedStrips(data: seq<byte>, blockSize: nat)
    requires 1 <= blockSize <= 256
    ensures PadOk(Padded(data, blockSize)) && Stripped(Padded(data, blockSize)) == data
  {
    PadIsUnique(data, PadSize(|data|, blockSize) - 1);
  }

  /** Whatever was sealed opens to the original bytes, for every length, block
      size and choice of active primitives. */
  lemma SealThenOpen(ses: Session, auth: seq<byte>, data: seq<byte>, tagLen: nat)
    requires Lawful(ses) && tagLen <= ses.digestSize
    requires Seal(ses, auth, data, tagLen).Done?
    ensures Open(ses, auth, Seal(ses, auth, data, tagLen).bytes, tagLen) == Done(data)
  {
    var tagged := Tagged(ses, auth, data, tagLen).bytes;
    if ses.blockSize > 1 { PaddedStrips(tagged, ses.blockSize); }
    if ses.hashInit { assert tagged[..|data|] == data; }
  }

  /** The trailer that makes whole blocks, by as few bytes as possible. */
  ghost predicate CompletesBlocks(ses: Session, len: nat, pad: seq<byte>) {
    && IsTrailer(ses, pad)
    && (ses.cipherInit && ses.blockSize > 1 ==> |pad| <= ses.blockSize && (len + |pad|) % ses.blockSize == 0)
  }

  /** What sealing yields: the data, the tag if there is a hash, and the trailer,
      through the cipher if there is one. Only a primitive can fail. */
  lemma SealYields(ses: Session, auth: seq<byte>, data: seq<byte>, tagLen: nat)
    returns (tag: seq<byte>, pad: seq<byte>)
    requires Lawful(ses) && tagLen <= ses.digestSize
    ensures ses.hashInit && ses.mac(auth + data).Failed? ==> Seal(ses, auth, data, tagLen) == ses.mac(auth + data)
    ensures ses.hashInit ==> ses.mac(auth + data).Done? ==>
              |tag| == tagLen && tag == ses.mac(auth + data).bytes[..tagLen]
    ensures !ses.hashInit ==> tag == []
    ensures CompletesBlocks(ses, |data + tag|, pad)
    ensures ses.hashInit ==> ses.mac(auth + data).Done? ==>
              Seal(ses, auth, data, tagLen) ==
              if ses.cipherInit then ses.encrypt(data + tag + pad) else Done(data + tag)
    ensures !ses.hashInit ==>
              Seal(ses, auth, data, tagLen) == if ses.cipherInit then ses.encrypt(data + pad) else Done(data)
  {
    tag, pad := [], [];
    if ses.hashInit && ses.mac(auth + data).Done? { tag := ses.mac(auth + data).bytes[..tagLen]; }
    assert data + [] == data;
    if ses.cipherInit && ses.blockSize > 1 {
      pad := Padding(PadSize(|data + tag|, ses.blockSize) - 1);
      RoundUpIsMonotone(|data + tag|, |data + tag|, ses.blockSize);
    }
    assert data + tag + [] == data + tag;
  }

  /** cryptodev_get_dst_len for the TLS flag. */
  function DstLen(encrypting: bool, len: nat, tagLen: nat, blockSize: nat): nat
    requires blockSize > 0
  {
    if !encrypting then len else len + tagLen + (blockSize - (len + tagLen) % blockSize)
  }

  lemma RoundUpIsMonotone(a: nat, b: nat, n: nat)
    requires n > 0 && a <= b
    ensures a + PadSize(a, n) <= b + PadSize(b, n)
    ensures (a + PadSize(a, n)) % n == 0
  {
    RoundUpIs(a, n);
    RoundUpIs(b, n);
    MulMonotone(n, a / n, b / n, a % n, b % n);
    MulMod(n, a / n + 1);
  }

  lemma RoundUpIs(a: nat, n: nat)
    requires n > 0
    ensures a == n * (a / n) + a % n
    ensures a + PadSize(a, n) == n * (a / n + 1)
  {
    var q := a / n;
    assert n * (q + 1) == n * q + n;
  }

  lemma MulMonotone(n: nat, qa: nat, qb: nat, ra: nat, rb: nat)
    requires n > 0 && ra < n && rb < n && n * qa + ra <= n * qb + rb
    ensures n * (qa + 1) <= n * (qb + 1)
  {
    assert n * qa - n * qb == n * (qa - qb);
    MultipleIsFar(n, qa - qb);
  }

  lemma MulMod(n: nat, q: nat)
    requires n > 0
    ensures (n * q) % n == 0
  {
    DivModUnique(n * q, n, q, 0);
  }

  /** The sealed record fits the buffer the caller was told to allocate, exactly
      when a hash and a block cipher are active, and is then whole blocks. */
  lemma SealedLength(ses: Session, auth: seq<byte>, data: seq<byte>, tagLen: nat)
    requires Lawful(ses) && tagLen <= ses.digestSize
    requires Seal(ses, auth, data, tagLen).Done?
    ensures var n := |Seal(ses, auth, data, tagLen).bytes|;
            && n <= DstLen(true, |data|, tagLen, ses.blockSize)
            && (ses.cipherInit && ses.blockSize > 1 ==> n % ses.blockSize == 0)
            && (ses.hashInit && ses.cipherInit && ses.blockSize > 1 ==>
                n == DstLen(true, |data|, tagLen, ses.blockSize))
            && (ses.blockSize == 1 ==> n < DstLen(true, |data|, tagLen, ses.blockSize))
  {
    var tagged := Tagged(ses, auth, data, tagLen).bytes;
    RoundUpIsMonotone(|tagged|, |data| + tagLen, ses.blockSize);
  }

  // ----- the code, in place -----

  method PadRecord(buf: array<byte>, len: nat, blockSize: nat) returns (padSize: nat)
    requires 1 <= blockSize <= 256 && len + PadSize(len, blockSize) <= buf.Length
    modifies buf
    ensures padSize == PadSize(len, blockSize)
    ensures buf[..len + padSize] == Padded(old(buf[..len]), blockSize)
    ensures buf[len + padSize..] == old(buf[len + padSize..])
  {
    padSize := blockSize - len % blockSize;
    Store(buf, len, Padding(padSize - 1));
    assert |Padding(padSize - 1)| == padSize;
  }

  /** The length of the padding, or -EBADMSG; a sound padding is never refused
      and an unsound one never passes. */
  method VerifyPad(buf: array<byte>, len: nat) returns (r: int)
    requires 0 < len <= buf.Length
    ensures r == (if PadOk(buf[..len]) then buf[len - 1] + 1 else -EBADMSG)
  {
    var padSize := buf[len - 1];
    ghost var s := buf[..len];
    assert s[|s| - 1] == padSize;
    if padSize + 1 > len { return -EBADMSG; }
    var pad := buf[len - padSize - 1..len];
    var i := 0;
    while i < padSize
      invariant 0 <= i <= padSize
      invariant forall j :: 0 <= j < i ==> pad[j] == padSize
    {
      if pad[i] != padSize {
        assert s[len - padSize - 1 + i] == pad[i];
        return -EBADMSG;
      }
      i := i + 1;
    }
    assert forall k :: len - padSize - 1 <= k < len - 1 ==> s[k] == pad[k - (len - padSize - 1)];
    return padSize + 1;
  }

  /** The hash half of encryption: the tag goes right behind the data. */
  method AppendTag(ses: Session, auth: seq<byte>, buf: array<byte>, len: nat, tagLen: nat) returns (ret: int, n: nat)
    requires Lawful(ses) && tagLen <= ses.digestSize && len + tagLen <= buf.Length
    modifies buf
    ensures var r := Tagged(ses, auth, old(buf[..len]), tagLen);
            if r.Failed? then ret == r.code && ret != 0
            else ret == 0 && n == |r.bytes| <= len + tagLen && buf[..n] == r.bytes && buf[n..] == old(buf[n..])
  {
    ret, n := 0, len;
    if ses.hashInit {
      var digest := ses.mac(auth + buf[..len]);
      if digest.Failed? { return digest.code, n; }
      n := len + tagLen;
      Store(buf, len, digest.bytes[..tagLen]);
    }
  }

  /** The cipher half: pad, then encrypt in place. */
  method PadAndEncrypt(ses: Session, buf: array<byte>, len: nat) returns (ret: int, n: nat)
    requires Lawful(ses) && len + PadSize(len, ses.blockSize) <= buf.Length
    modifies buf
    ensures var r := if !ses.cipherInit then Done(old(buf[..len]))
                     else ses.encrypt(if ses.blockSize > 1 then Padded(old(buf[..len]), ses.blockSize)
                         else old(buf[..len]));
            if r.Failed? then ret == r.code && ret != 0
            else ret == 0 && n == |r.bytes| <= buf.Length && buf[..n] == r.bytes && buf[n..] == old(buf[n..])
  {
    ret, n := 0, len;
    if ses.cipherInit {
      if ses.blockSize > 1 {
        var padSize := PadRecord(buf, len, ses.blockSize);
        n := len + padSize;
      }
      var sealed := ses.encrypt(buf[..n]);
      if sealed.Failed? { return sealed.code, n; }
      Store(buf, 0, sealed.bytes);
    }
  }

  /** tls_auth_n_crypt, encrypting: the buffer holds the sealed record, and
      nothing behind it is touched. */
  method Encrypt(ses: Session, auth: seq<byte>, buf: array<byte>, len: nat, tagLen: nat) returns (ret: int, dstLen: nat)
    requires Lawful(ses) && tagLen <= ses.digestSize
    requires DstLen(true, len, tagLen, ses.blockSize) <= buf.Length
    modifies buf
    ensures var r := Seal(ses, auth, old(buf[..len]), tagLen);
            if r.Failed? then ret == r.code && ret != 0
            else
              && ret == 0 && dstLen == |r.bytes| <= buf.Length && buf[..dstLen] == r.bytes
              && buf[dstLen..] == old(buf[dstLen..])
  {
    ret, dstLen := AppendTag(ses, auth, buf, len, tagLen);
    if ret != 0 { return; }
    RoundUpIsMonotone(dstLen, len + tagLen, ses.blockSize);
    ret, dstLen := PadAndEncrypt(ses, buf, dstLen);
  }

  /** The cipher half of decryption: decrypt in place and measure the padding. */
  method DecryptAndVerifyPad(ses: Session, buf: array<byte>, len: nat) returns (ret: int, n: nat, fail: bool)
    requires Lawful(ses) && 0 < len <= buf.Length
    modifies buf
    ensures buf[len..] == old(buf[len..])
    ensures var r := if ses.cipherInit then ses.decrypt(old(buf[..len])) else Done(old(buf[..len]));
            if r.Failed? then ret == r.code && ret != 0
            else
              && ret == 0 && |r.bytes| == len && n <= len && buf[..len] == r.bytes
              && fail == (ses.cipherInit && ses.blockSize > 1 && !PadOk(r.bytes))
              && buf[..n] ==
                  (if ses.cipherInit && ses.blockSize > 1 && PadOk(r.bytes) then Stripped(r.bytes) else r.bytes)
  {
    ret, n, fail := 0, len, false;
    if ses.cipherInit {
      var plain := ses.decrypt(buf[..len]);
      if plain.Failed? { return plain.code, n, fail; }
      Store(buf, 0, plain.bytes);
      assert buf[..len] == plain.bytes;
      if ses.blockSize > 1 {
        var pad := VerifyPad(buf, len);
        if pad < 0 { fail := true; } else { n := len - pad; }
      }
    }
  }

  /** The hash half of decryption; a bad padding is only reported after the MAC
      has been computed. */
  method VerifyTag(ses: Session, auth: seq<byte>, buf: array<byte>, len: nat, fail: bool, tagLen: nat)
      returns (ret: int, n: nat)
    requires Lawful(ses) && tagLen <= ses.digestSize && len <= buf.Length
    ensures var r := CheckTag(ses, auth, buf[..len], fail, tagLen);
            if r.Failed? then ret == r.code && ret != 0 else ret == 0 && n == |r.bytes| <= len && buf[..n] == r.bytes
  {
    ret, n := 0, len;
    if ses.hashInit {
      if tagLen > MAX_RESULT_LEN || tagLen > len { return -EINVAL, n; }
      n := len - tagLen;
      var tag := buf[n..len];
      assert tag == buf[..len][n..] && buf[..n] == buf[..len][..n];
      var digest := ses.mac(auth + buf[..n]);
      if digest.Failed? { return digest.code, n; }
      if digest.bytes[..tagLen] != tag || fail { return -EBADMSG, n; }
    }
  }

  /** tls_auth_n_crypt, decrypting, behind the check of get_userbuf_tls that
      refuses an empty destination. */
  method Decrypt(ses: Session, auth: seq<byte>, buf: array<byte>, len: nat, tagLen: nat) returns (ret: int, dstLen: nat)
    requires Lawful(ses) && tagLen <= ses.digestSize && len <= buf.Length
    modifies buf
    ensures len == 0 ==> ret == -EINVAL
    ensures var r := Open(ses, auth, old(buf[..len]), tagLen);
            len > 0 ==>
            if r.Failed? then ret == r.code && ret != 0
            else ret == 0 && dstLen == |r.bytes| <= len && buf[..dstLen] == r.bytes
    ensures buf[len..] == old(buf[len..])
  {
    if len == 0 { return -EINVAL, 0; }
    var fail;
    ret, dstLen, fail := DecryptAndVerifyPad(ses, buf, len);
    if ret != 0 { return; }
    ret, dstLen := VerifyTag(ses, auth, buf, dstLen, fail, tagLen);
  }
}
