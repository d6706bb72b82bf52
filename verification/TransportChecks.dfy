/**
 * What each call of the frame cipher answers and changes, on its arguments and the state, and which bootstrap
 * values the pairing text carries.
 */
module TransportChecks {
  import opened Bits
  import opened BigEndian
  import opened Buffers
  import opened Wrappers
  import opened Transport
  import TransportBootstrap
  import Base64Url

  // ---- Frames --------------------------------------------------------------------------

  /** The bytes of a frame: one byte of version, twelve of nonce, four of length, the ciphertext and sixteen of tag;
      frames hold from 1 to 65503 bytes of text, in at most 65536 bytes. */
  lemma SerializedExactly(f: Frame)
    ensures SerializeFrame(f).Ok? <==> f.version == 1 && |f.nonce| == 12 && |f.tag| == 16 && 1 <= |f.ciphertext| <= 65503
    ensures SerializeFrame(f).Err? ==>
      SerializeFrame(f).error == if |f.nonce| == 12 && |f.tag| == 16 then FrameInvalid else LengthInvalid
    ensures SerializeFrame(f).Ok? ==>
      var b := SerializeFrame(f).value;
      |b| == 1 + 12 + 4 + |f.ciphertext| + 16 <= 65536
      && b[0] == 1 && b[1..13] == f.nonce && Value(b[13..17]) == |f.ciphertext|
      && b[17..17 + |f.ciphertext|] == f.ciphertext && b[17 + |f.ciphertext|..] == f.tag
  {
    hide Value, Fixed, FrameBytes;
    if SerializeFrame(f).Ok? {
      FrameParts(f);
      FourBytes(|f.ciphertext|);
    }
  }

  lemma LargestFrame()
    ensures MAX_PLAINTEXT + 33 == MAX_FRAME == 65536
  {
  }

  /** A byte string is refused exactly if it is not one version byte, a nonce, a length and that many bytes with a tag. */
  lemma ParsedExactly(b: seq<Byte>)
    ensures ParseFrame(b).Ok?
       <==> 34 <= |b| <= 65536 && b[0] == 1 && Value(b[13..17]) == |b| - 33
    ensures ParseFrame(b).Ok? ==>
      var f := ParseFrame(b).value;
      f.version == 1 && f.nonce == b[1..13] && f.ciphertext == b[17..|b| - 16] && f.tag == b[|b| - 16..]
    ensures ParseFrame(b).Err? ==> ParseFrame(b).error == FrameInvalid
  {
    hide Value;
  }

  // ---- The cipher -------------------------------------------------------------------------

  /** Encryption: refused after destruction, for a text that does not fit, a nonce of the wrong length or a used one.
      Otherwise the nonce is used up, and the frame seals the text under the key, this nonce and this data. */
  lemma EncryptExactly(a: Aead, s: State, plaintext: seq<Byte>, aad: seq<Byte>, nonce: seq<Byte>)
    requires Lawful(a)
    ensures var o := Encrypt(a, s, plaintext, aad, nonce);
      if s.destroyed then o == Outcome(s, Err(KeyDestroyed))
      else if |plaintext| < 1 || |plaintext| > 65503 then o == Outcome(s, Err(PlaintextInvalid))
      else if |nonce| != 12 then o == Outcome(s, Err(LengthInvalid))
      else if nonce in s.encryptNonces then o == Outcome(s, Err(NonceReuse))
      else
        && o.state == State(s.key, s.encryptNonces + {nonce}, s.decryptNonces, false)
        && o.result.Ok? && ParseFrame(o.result.value).Ok?
        && var f := ParseFrame(o.result.value).value;
        f.nonce == nonce && Sealed(f.ciphertext, f.tag) == a.seal(s.key, nonce, aad, plaintext)
  {
    hide ParseFrame, FrameBytes;
    var sealed := a.seal(s.key, nonce, aad, plaintext);
    assert |sealed.ciphertext| == |plaintext| && |sealed.tag| == 16 && a.open(s.key, nonce, aad, sealed) == Some(plaintext);
    var f := Frame(1, nonce, sealed.ciphertext, sealed.tag);
    ParseExactly(FrameBytes(f), f);
  }

  /** Decryption: refused after destruction, for bytes that are no frame, or a used nonce.  Otherwise the nonce is used
      up, whether or not the frame opens under the key, its nonce and this data. */
  lemma DecryptExactly(a: Aead, s: State, frame: seq<Byte>, aad: seq<Byte>)
    ensures var o := Decrypt(a, s, frame, aad);
      if s.destroyed then o == Outcome(s, Err(KeyDestroyed))
      else if ParseFrame(frame).Err? then o == Outcome(s, Err(FrameInvalid))
      else
        var f := ParseFrame(frame).value;
        if f.nonce in s.decryptNonces then o == Outcome(s, Err(NonceReuse))
        else
          && o.state == State(s.key, s.encryptNonces, s.decryptNonces + {f.nonce}, false)
          && var plain := a.open(s.key, f.nonce, aad, Sealed(f.ciphertext, f.tag));
          if plain == None then o.result == Err(AuthenticationFailed) else o.result.Ok? && Some(o.result.value) == plain
  {
    hide ParseFrame;
    ParsedExactly(frame);
  }

  lemma DestroyExactly(s: State)
    ensures var t := Destroy(s);
      t.destroyed && t.encryptNonces == t.decryptNonces == {} && |t.key| == |s.key| && forall i :: 0 <= i < |t.key| ==> t.key[i] == 0
  {
  }

  // ---- The bootstrap text -----------------------------------------------------------------

  /** The characters and bytes that every bootstrap text starts with. */
  lemma BootstrapStarts()
    ensures TransportBootstrap.PREFIX == "phil-step6c-" + "routine-v1" + ":"
    ensures |TransportBootstrap.MAGIC| == 8
    ensures forall i :: 0 <= i < 8 ==> TransportBootstrap.MAGIC[i] == "PHIL6C01"[i] as int
  {
  }

  /** The three private ranges: 10.0.0.0/8, 172.16.0.0/12 and 192.168.0.0/16, by the number of the address. */
  lemma PrivateExactly(address: seq<Byte>)
    requires |address| == 4
    ensures var n := Value(address);
      TransportBootstrap.PrivateAddress(address)
      <==> 0x0A00_0000 <= n < 0x0B00_0000 || 0xAC10_0000 <= n < 0xAC20_0000 || 0xC0A8_0000 <= n < 0xC0A9_0000
  {
    hide Value;
    ValueOfFour(address);
  }

  /** What a bootstrap must be to be written: sizes, a private address, a port, an uncompressed point, an expiry, and
      identifiers that are not all zero.  Then the text is the prefix and the base64url form of 216 bytes, in which
      every field stands at its offset. */
  lemma BootstrapExactly(st: TransportBootstrap.Setting, x: TransportBootstrap.Bootstrap)
    requires st.Valid()
    ensures TransportBootstrap.Encode(st, x).Some?
       <==> && |x.sessionId| == 32 == |x.requestId| && |x.ipv4| == 4 && |x.desktopKey| == 65
            && Value(x.sessionId) != 0 && Value(x.requestId) != 0
            && TransportBootstrap.PrivateAddress(x.ipv4) && 0 < x.port < 65536
            && x.desktopKey[0] == 4 && st.isPoint(x.desktopKey) && 0 < x.expiresAt < 0x1_0000_0000_0000_0000
    ensures TransportBootstrap.Encode(st, x).Some? ==>
      exists b: seq<Byte> ::
        && TransportBootstrap.Encode(st, x).value == TransportBootstrap.PREFIX + Base64Url.Encode(b)
        && |b| == 216 && b[0..8] == TransportBootstrap.MAGIC && b[8] == 1 && b[9..41] == x.sessionId && b[41..45] == x.ipv4
        && Value(b[45..47]) == x.port && b[47..79] == st.beginHash && b[79..111] == st.completeHash
        && b[111..176] == x.desktopKey && b[176..208] == x.requestId && Value(b[208..216]) == x.expiresAt
  {
    ZeroExactly(x.sessionId);
    ZeroExactly(x.requestId);
    hide Value, TransportBootstrap.NonZero, TransportBootstrap.PrivateAddress, TransportBootstrap.MAGIC, TransportBootstrap.PREFIX;
    hide Base64Url.Encode, TransportBootstrap.Layout;
    if TransportBootstrap.Encode(st, x).Some? {
      var b := TransportBootstrap.Layout(st, x);
      TransportBootstrap.FieldsOfLayout(st, x);
      assert b[0..8] == b[..8];
    }
  }

  lemma {:induction false} ZeroExactly(b: seq<Byte>)
    ensures TransportBootstrap.NonZero(b) <==> Value(b) != 0
  {
    if b != [] {
      var init := b[..|b| - 1];
      ZeroExactly(init);
      if TransportBootstrap.NonZero(b) && b[|b| - 1] == 0 {
        var i :| 0 <= i < |b| && b[i] != 0;
        assert init[i] != 0;
      }
      if TransportBootstrap.NonZero(init) {
        var i :| 0 <= i < |init| && init[i] != 0;
        assert b[i] != 0;
      }
    }
  }
}
