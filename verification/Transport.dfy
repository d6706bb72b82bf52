/**
 * Encrypted frames of the routine transport and the cipher object that makes and opens them.
 * The cipher remembers which nonces it has used in each direction, until it is destroyed.
 */
module Transport {
  import opened Bits
  import opened BigEndian
  import opened Buffers
  import opened Wrappers

  const MAX_PLAINTEXT: nat := 65503
  const MAX_FRAME: nat := 65536

  datatype Error = FrameInvalid | LengthInvalid | PlaintextInvalid | KeyDestroyed | NonceReuse | AuthenticationFailed

  datatype Result<T> = Ok(value: T) | Err(error: Error)

  // ---- Frames --------------------------------------------------------------------

  datatype Frame = Frame(version: nat, nonce: seq<Byte>, ciphertext: seq<Byte>, tag: seq<Byte>)

  /** Version, nonce, ciphertext length, ciphertext, tag. */
  function FrameBytes(f: Frame): seq<Byte>
    requires f.version < 256
  {
    [f.version] + (f.nonce + (Fixed(|f.ciphertext|, 4) + (f.ciphertext + f.tag)))
  }

  predicate FrameValid(f: Frame) {
    f.version == 1 && |f.nonce| == 12 && |f.tag| == 16 && 1 <= |f.ciphertext| <= MAX_PLAINTEXT
  }

  function SerializeFrame(f: Frame): Result<seq<Byte>> {
    if |f.nonce| != 12 || |f.tag| != 16 then Err(LengthInvalid)
    else if f.version != 1 || !(1 <= |f.ciphertext| <= MAX_PLAINTEXT) then Err(FrameInvalid)
    else Ok(FrameBytes(f))
  }

  function ParseFrame(b: seq<Byte>): Result<Frame> {
    if |b| < 34 || |b| > MAX_FRAME || b[0] != 1 then Err(FrameInvalid)
    else
      var length := Value(b[13..17]);
      if length < 1 || length > MAX_PLAINTEXT || |b| != 33 + length then Err(FrameInvalid)
      else Ok(Frame(1, b[1..13], b[17..17 + length], b[17 + length..]))
  }

  /** Copies a byte string into a buffer at an offset. */
  method Copy(source: seq<Byte>, output: array<Byte>, at: nat)
    requires at + |source| <= output.Length
    modifies output
    ensures output[..] == old(output[..at]) + source + old(output[at + |source|..])
  {
    for i := 0 to |source|
      invariant output[..at] == old(output[..at])
      invariant output[at..at + i] == source[..i]
      invariant output[at + i..] == old(output[at + i..])
    {
      output[at + i] := source[i];
      assert output[at..at + i + 1] == output[at..at + i] + [source[i]];
      assert output[at + i + 1..] == output[at + i..][1..];
    }
    assert source[..|source|] == source;
    assert output[..] == output[..at] + output[at..at + |source|] + output[at + |source|..];
  }

  /** The serializer's writes, each part at its offset of a zeroed buffer. */
  method WriteFrame(f: Frame) returns (r: Result<array<Byte>>)
    ensures r.Err? ==> SerializeFrame(f) == Err(r.error)
    ensures r.Ok? ==> SerializeFrame(f) == Ok(r.value[..]) && fresh(r.value)
  {
    hide Fixed, FrameBytes;
    if |f.nonce| != 12 || |f.tag| != 16 { return Err(LengthInvalid); }
    if f.version != 1 || |f.ciphertext| < 1 || |f.ciphertext| > MAX_PLAINTEXT { return Err(FrameInvalid); }
    var n := |f.ciphertext|;
    var output := new Byte[33 + n](_ => 0);
    output[0] := 1;
    assert output[..] == [1] + output[1..];
    ghost var whole := output[..];
    Copy(f.nonce, output, 1);
    Copied(whole, [1], f.nonce);
    whole := output[..];
    Copy(Fixed(n, 4), output, 13);
    Copied(whole, [1] + f.nonce, Fixed(n, 4));
    whole := output[..];
    Copy(f.ciphertext, output, 17);
    Copied(whole, [1] + f.nonce + Fixed(n, 4), f.ciphertext);
    whole := output[..];
    Copy(f.tag, output, 17 + n);
    Copied(whole, [1] + f.nonce + Fixed(n, 4) + f.ciphertext, f.tag);
    whole := output[..];
    assert whole[..|whole|] == whole;
    PartsOfFrame(f);
    return Ok(output);
  }

  /** Writing behind a finished prefix extends it. */
  lemma Copied(whole: seq<Byte>, done: seq<Byte>, part: seq<Byte>)
    requires |done| + |part| <= |whole| && whole[..|done|] == done
    ensures var next := whole[..|done|] + part + whole[|done| + |part|..];
      |next| == |whole| && next[..|done + part|] == done + part
  {
  }

  lemma PartsOfFrame(f: Frame)
    requires f.version == 1
    ensures FrameBytes(f) == [1] + f.nonce + Fixed(|f.ciphertext|, 4) + f.ciphertext + f.tag
  {
  }

  /** The parts of a serialized frame, at the offsets the parser reads. */
  lemma FrameParts(f: Frame)
    requires FrameValid(f)
    ensures var b := FrameBytes(f);
      |b| == 33 + |f.ciphertext| && b[0] == 1 && b[1..13] == f.nonce && b[13..17] == Fixed(|f.ciphertext|, 4)
      && b[17..17 + |f.ciphertext|] == f.ciphertext && b[17 + |f.ciphertext|..] == f.tag
  {
    hide Fixed;
    var b, n := FrameBytes(f), |f.ciphertext|;
    assert b[1..] == f.nonce + (Fixed(n, 4) + (f.ciphertext + f.tag));
    assert b[13..] == Fixed(n, 4) + (f.ciphertext + f.tag) by { assert b[13..] == b[1..][12..]; }
    assert b[17..] == f.ciphertext + f.tag by { assert b[17..] == b[13..][4..]; }
    assert b[1..13] == b[1..][..12];
    assert b[13..17] == b[13..][..4];
    assert b[17..17 + n] == b[17..][..n];
    assert b[17 + n..] == b[17..][n..];
  }

  /** Parsing undoes serializing, and accepts nothing but serialized frames. */
  lemma ParseExactly(b: seq<Byte>, f: Frame)
    ensures ParseFrame(b) == Ok(f) <==> SerializeFrame(f) == Ok(b)
  {
    hide Fixed, Value, FrameBytes, Pow256;
    if SerializeFrame(f) == Ok(b) {
      FrameParts(f);
      FourBytes(|f.ciphertext|);
    }
    if ParseFrame(b) == Ok(f) {
      FixedOfValue(b[13..17]);
      WholeFrame(b, f);
    }
  }

  lemma FourBytes(n: nat)
    requires n < 0x1_0000_0000
    ensures Value(Fixed(n, 4)) == n
  {
    assert Pow256(4) == 0x1_0000_0000;
    ValueOfFixed(n, 4);
  }

  lemma WholeFrame(b: seq<Byte>, f: Frame)
    requires ParseFrame(b) == Ok(f) && Fixed(|f.ciphertext|, 4) == b[13..17]
    ensures FrameBytes(f) == b && FrameValid(f)
  {
    hide Fixed, Value;
    var n := |f.ciphertext|;
    assert b == [b[0]] + b[1..];
    assert b[1..] == b[1..13] + b[13..];
    assert b[13..] == b[13..17] + b[17..];
    assert b[17..] == b[17..17 + n] + b[17 + n..];
  }

  // ---- The cipher -----------------------------------------------------------------

  datatype Sealed = Sealed(ciphertext: seq<Byte>, tag: seq<Byte>)

  /** Authenticated encryption: key, nonce, associated data and text. */
  datatype Aead = Aead(
    seal: (seq<Byte>, seq<Byte>, seq<Byte>, seq<Byte>) -> Sealed,
    open: (seq<Byte>, seq<Byte>, seq<Byte>, Sealed) -> Option<seq<Byte>>)

  /** What sealing promises: as long as the text, a 16-byte tag, and opened by the same key,
      nonce and associated data. */
  ghost predicate Lawful(a: Aead) {
    forall key, nonce, aad, text ::
      var s := a.seal(key, nonce, aad, text);
      |s.ciphertext| == |text| && |s.tag| == 16 && a.open(key, nonce, aad, s) == Some(text)
  }

  /** The cipher's fields. */
  datatype State = State(key: seq<Byte>, encryptNonces: set<seq<Byte>>, decryptNonces: set<seq<Byte>>, destroyed: bool)

  datatype Outcome = Outcome(state: State, result: Result<seq<Byte>>)

  function Encrypt(a: Aead, s: State, plaintext: seq<Byte>, aad: seq<Byte>, nonce: seq<Byte>): Outcome {
    if s.destroyed then Outcome(s, Err(KeyDestroyed))
    else if !(1 <= |plaintext| <= MAX_PLAINTEXT) then Outcome(s, Err(PlaintextInvalid))
    else if |nonce| != 12 then Outcome(s, Err(LengthInvalid))
    else if nonce in s.encryptNonces then Outcome(s, Err(NonceReuse))
    else
      var sealed := a.seal(s.key, nonce, aad, plaintext);
      Outcome(s.(encryptNonces := s.encryptNonces + {nonce}), SerializeFrame(Frame(1, nonce, sealed.ciphertext, sealed.tag)))
  }

  function Decrypt(a: Aead, s: State, frame: seq<Byte>, aad: seq<Byte>): Outcome {
    if s.destroyed then Outcome(s, Err(KeyDestroyed))
    else
      match ParseFrame(frame)
      case Err(e) => Outcome(s, Err(e))
      case Ok(f) =>
        if f.nonce in s.decryptNonces then Outcome(s, Err(NonceReuse))
        else
          var t := s.(decryptNonces := s.decryptNonces + {f.nonce});
          match a.open(s.key, f.nonce, aad, Sealed(f.ciphertext, f.tag))
          case None => Outcome(t, Err(AuthenticationFailed))
          case Some(text) => Outcome(t, Ok(text))
  }

  function Zeroed(n: nat): seq<Byte> { seq(n, _ => 0) }

  function Destroy(s: State): State {
    State(Zeroed(|s.key|), {}, {}, true)
  }

  class Cipher {
    const aead: Aead
    const key: array<Byte>
    var encryptNonces: set<seq<Byte>>
    var decryptNonces: set<seq<Byte>>
    var destroyed: bool

    ghost function Contents(): State
      reads this, key
    {
      State(key[..], encryptNonces, decryptNonces, destroyed)
    }

    constructor (a: Aead, bytes: seq<Byte>)
      requires |bytes| == 32
      ensures aead == a && fresh(key) && Contents() == State(bytes, {}, {}, false)
    {
      aead := a;
      var buffer := new Byte[32](i requires 0 <= i < 32 => bytes[i]);
      key := buffer;
      encryptNonces, decryptNonces, destroyed := {}, {}, false;
      new;
      assert key[..] == bytes;
    }

    method EncryptFrame(plaintext: seq<Byte>, aad: seq<Byte>, nonce: seq<Byte>) returns (r: Result<seq<Byte>>)
      modifies this
      ensures Outcome(Contents(), r) == Encrypt(aead, old(Contents()), plaintext, aad, nonce)
    {
      hide SerializeFrame;
      if destroyed { return Err(KeyDestroyed); }
      if |plaintext| < 1 || |plaintext| > MAX_PLAINTEXT { return Err(PlaintextInvalid); }
      if |nonce| != 12 { return Err(LengthInvalid); }
      if nonce in encryptNonces { return Err(NonceReuse); }
      encryptNonces := encryptNonces + {nonce};
      var sealed := aead.seal(key[..], nonce, aad, plaintext);
      r := SerializeFrame(Frame(1, nonce, sealed.ciphertext, sealed.tag));
    }

    method DecryptFrame(frame: seq<Byte>, aad: seq<Byte>) returns (r: Result<seq<Byte>>)
      modifies this
      ensures Outcome(Contents(), r) == Decrypt(aead, old(Contents()), frame, aad)
    {
      hide ParseFrame;
      if destroyed { return Err(KeyDestroyed); }
      var parsed := ParseFrame(frame);
      if parsed.Err? { return Err(parsed.error); }
      var f := parsed.value;
      if f.nonce in decryptNonces { return Err(NonceReuse); }
      decryptNonces := decryptNonces + {f.nonce};
      var plain := aead.open(key[..], f.nonce, aad, Sealed(f.ciphertext, f.tag));
      r := if plain.None? then Err(AuthenticationFailed) else Ok(plain.value);
    }

    method DestroyKey()
      modifies this, key
      ensures Contents() == Destroy(old(Contents()))
    {
      forall i | 0 <= i < key.Length { key[i] := 0; }
      encryptNonces, decryptNonces, destroyed := {}, {}, true;
    }
  }

  // ---- Runs ---------------------------------------------------------------------

  datatype Call = CallEncrypt(plaintext: seq<Byte>, aad: seq<Byte>, nonce: seq<Byte>) | CallDecrypt(frame: seq<Byte>, aad: seq<Byte>) | CallDestroy

  function Perform(a: Aead, s: State, c: Call): Outcome {
    match c
    case CallEncrypt(p, aad, nonce) => Encrypt(a, s, p, aad, nonce)
    case CallDecrypt(f, aad) => Decrypt(a, s, f, aad)
    case CallDestroy => Outcome(Destroy(s), Ok([]))
  }

  function Run(a: Aead, s: State, calls: seq<Call>): State {
    if calls == [] then s else Perform(a, Run(a, s, calls[..|calls| - 1]), calls[|calls| - 1]).state
  }

  /** The result of call k of a run. */
  function ResultAt(a: Aead, s: State, calls: seq<Call>, k: nat): Result<seq<Byte>>
    requires k < |calls|
  {
    Perform(a, Run(a, s, calls[..k]), calls[k]).result
  }

  /** Once destroyed, always destroyed; until then used nonces stay used. */
  predicate Onward(s: State, t: State) {
    (s.destroyed ==> t.destroyed) && (t.destroyed || (s.encryptNonces <= t.encryptNonces && s.decryptNonces <= t.decryptNonces && s.key == t.key))
  }

  lemma {:induction false} RunOnward(a: Aead, s: State, calls: seq<Call>, i: nat, j: nat)
    requires i <= j <= |calls|
    ensures Onward(Run(a, s, calls[..i]), Run(a, s, calls[..j]))
    decreases j
  {
    hide ParseFrame, SerializeFrame;
    if i < j {
      RunOnward(a, s, calls, i, j - 1);
      assert calls[..j][..j - 1] == calls[..j - 1];
    }
  }

  lemma NextState(a: Aead, s: State, calls: seq<Call>, k: nat)
    requires k < |calls|
    ensures Run(a, s, calls[..k + 1]) == Perform(a, Run(a, s, calls[..k]), calls[k]).state
  {
    assert calls[..k + 1][..k] == calls[..k];
  }

  /** The nonces of the frames a run emits are pairwise distinct. */
  lemma EmittedNoncesDistinct(a: Aead, s: State, calls: seq<Call>, i: nat, j: nat)
    requires i < j < |calls| && calls[i].CallEncrypt? && calls[j].CallEncrypt?
    requires ResultAt(a, s, calls, i).Ok? && ResultAt(a, s, calls, j).Ok?
    ensures var first, second := ParseFrame(ResultAt(a, s, calls, i).value), ParseFrame(ResultAt(a, s, calls, j).value);
      first.Ok? && second.Ok? && first.value.nonce == calls[i].nonce && second.value.nonce == calls[j].nonce
      && first.value.nonce != second.value.nonce
  {
    hide ParseFrame, SerializeFrame, Run;
    NextState(a, s, calls, i);
    RunOnward(a, s, calls, i + 1, j);
    EmittedFrame(a, Run(a, s, calls[..i]), calls[i]);
    EmittedFrame(a, Run(a, s, calls[..j]), calls[j]);
  }

  lemma EmittedFrame(a: Aead, s: State, c: Call)
    requires c.CallEncrypt? && Perform(a, s, c).result.Ok?
    ensures var f := ParseFrame(Perform(a, s, c).result.value); f.Ok? && f.value.nonce == c.nonce
  {
    hide ParseFrame, SerializeFrame;
    var sealed := a.seal(s.key, c.nonce, c.aad, c.plaintext);
    ParseExactly(Perform(a, s, c).result.value, Frame(1, c.nonce, sealed.ciphertext, sealed.tag));
  }

  /** A frame is tried at most once: after any attempt on its nonce, successful or not, every
      later attempt in the run fails.  In particular each frame opens at most once. */
  lemma FramesOpenOnce(a: Aead, s: State, calls: seq<Call>, i: nat, j: nat)
    requires i < j < |calls| && calls[i].CallDecrypt? && calls[j].CallDecrypt?
    requires ParseFrame(calls[i].frame).Ok? && ParseFrame(calls[j].frame).Ok?
    requires ParseFrame(calls[i].frame).value.nonce == ParseFrame(calls[j].frame).value.nonce
    ensures ResultAt(a, s, calls, j).Err?
  {
    hide ParseFrame, Run;
    NextState(a, s, calls, i);
    RunOnward(a, s, calls, i + 1, j);
  }

  /** After a destroy nothing succeeds. */
  lemma NothingAfterDestroy(a: Aead, s: State, calls: seq<Call>, i: nat, j: nat)
    requires i < j < |calls| && calls[i].CallDestroy? && !calls[j].CallDestroy?
    ensures ResultAt(a, s, calls, j) == Err(KeyDestroyed)
    ensures Run(a, s, calls[..j]).key == Zeroed(|s.key|)
  {
    hide ParseFrame, SerializeFrame;
    NextState(a, s, calls, i);
    RunOnward(a, s, calls, i + 1, j);
    KeyGone(a, s, calls, i, j);
  }

  lemma {:induction false} KeyLength(a: Aead, s: State, calls: seq<Call>)
    ensures |Run(a, s, calls).key| == |s.key|
    ensures Run(a, s, calls).destroyed && !s.destroyed ==> Run(a, s, calls).key == Zeroed(|s.key|)
  {
    hide ParseFrame, SerializeFrame;
    if calls != [] { KeyLength(a, s, calls[..|calls| - 1]); }
  }

  lemma {:induction false} KeyGone(a: Aead, s: State, calls: seq<Call>, i: nat, j: nat)
    requires i < j <= |calls| && calls[i].CallDestroy?
    ensures Run(a, s, calls[..j]).key == Zeroed(|s.key|) && Run(a, s, calls[..j]).destroyed
    decreases j
  {
    hide ParseFrame, SerializeFrame, Run;
    NextState(a, s, calls, j - 1);
    KeyLength(a, s, calls[..j - 1]);
    if i < j - 1 { KeyGone(a, s, calls, i, j - 1); }
  }

  /** What one end encrypts the other end decrypts, if it holds the same key, is given the
      same associated data, and has not seen the nonce. */
  lemma EndToEnd(a: Aead, sender: State, receiver: State, plaintext: seq<Byte>, aad: seq<Byte>, nonce: seq<Byte>)
    requires Lawful(a) && sender.key == receiver.key && !receiver.destroyed && nonce !in receiver.decryptNonces
    requires !sender.destroyed && nonce !in sender.encryptNonces && |nonce| == 12 && 1 <= |plaintext| <= MAX_PLAINTEXT
    ensures var frame := Encrypt(a, sender, plaintext, aad, nonce).result;
      frame.Ok? && Decrypt(a, receiver, frame.value, aad).result == Ok(plaintext)
  {
    hide ParseFrame, FrameBytes;
    var sealed := a.seal(sender.key, nonce, aad, plaintext);
    assert |sealed.ciphertext| == |plaintext| && |sealed.tag| == 16 && a.open(sender.key, nonce, aad, sealed) == Some(plaintext);
    var f := Frame(1, nonce, sealed.ciphertext, sealed.tag);
    ParseExactly(FrameBytes(f), f);
  }
}
