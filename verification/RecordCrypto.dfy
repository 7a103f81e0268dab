/**
  The kernel primitives under the record code: a cipher and a keyed hash that
  are known only through their laws. A call either fails with a nonzero code or
  delivers bytes.
 */
module RecordCrypto {
  type byte = b: int | 0 <= b < 256

  const MAX_RESULT_LEN := 64

  datatype Outcome = Done(bytes: seq<byte>) | Failed(code: int)

  /** A session; the hash is reset before every operation, so it is a function
      of the bytes fed to it. */
  datatype Session = Session(
    cipherInit: bool, blockSize: nat, encrypt: seq<byte> -> Outcome, decrypt: seq<byte> -> Outcome,
    hashInit: bool, digestSize: nat, mac: seq<byte> -> Outcome)

  ghost predicate Lawful(s: Session) {
    && 1 <= s.blockSize <= 256
    && s.digestSize <= MAX_RESULT_LEN
    && (forall x :: s.encrypt(x).Done? ==> |s.encrypt(x).bytes| == |x| && s.decrypt(s.encrypt(x).bytes) == Done(x))
    && (forall x :: s.decrypt(x).Done? ==> |s.decrypt(x).bytes| == |x|)
    && (forall x :: s.mac(x).Done? ==> |s.mac(x).bytes| == s.digestSize)
    && (forall x :: s.encrypt(x).Failed? ==> s.encrypt(x).code != 0)
    && (forall x :: s.decrypt(x).Failed? ==> s.decrypt(x).code != 0)
    && (forall x :: s.mac(x).Failed? ==> s.mac(x).code != 0)
  }

  /** scatterwalk_map_and_copy into the buffer. */
  method Store(buf: array<byte>, at: nat, bytes: seq<byte>)
    requires at + |bytes| <= buf.Length
    modifies buf
    ensures buf[..] == old(buf[..at]) + bytes + old(buf[at + |bytes|..])
  {
    forall i | 0 <= i < |bytes| {
      buf[at + i] := bytes[i];
    }
  }
}
