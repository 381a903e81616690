/** The two token formats: legacy CBC with its base64 variant, and the authenticated format
    with its canonical-encoding check. The block cipher and the EAX mode are parameters
    known by their inverse laws only. */
module TokenCodec {
  import opened Outcomes
  import opened Base64

  type Bytes = seq<byte>

  const BLOCK: nat := 16
  const AUTH_PREFIX: string := "dwho-eax-v1:"

  datatype Failure = BadKey | BadEncoding | BadLength | BadPadding | BadPrefix | BadPayload | BadTag

  // ---- padding (section 6.3 of RFC 5652)

  function Repeat(x: byte, n: nat): Bytes {
    seq(n, _ => x)
  }

  function Pad(bs: nat, data: Bytes): Bytes
    requires 1 <= bs < 256
  {
    var count := bs - |data| % bs;
    data + Repeat(count, count)
  }

  /** Padding to whole cipher blocks. */
  function Padded(data: Bytes): (r: Bytes)
    ensures |r| % BLOCK == 0 && 0 < |r|
  {
    var count := BLOCK - |data| % BLOCK;
    assert |data| == |data| / BLOCK * BLOCK + |data| % BLOCK;
    assert |Pad(BLOCK, data)| == (|data| / BLOCK + 1) * BLOCK;
    Pad(BLOCK, data)
  }

  /** data[-count:], which in Python is all of `data` when it is shorter than that. */
  function Suffix(data: Bytes, count: nat): Bytes {
    if count <= |data| then data[|data| - count..] else data
  }

  function Unpad(data: Bytes): Result<Bytes, Failure> {
    if data == [] then Err(BadPadding) else
    var count := data[|data| - 1];
    if count < 1 || BLOCK < count || Suffix(data, count) != Repeat(count, count) then Err(BadPadding)
    else Ok(data[..|data| - count])
  }

  /** `n` copies of the byte `n`, with 1 <= n <= 16, behind `plain`. */
  predicate PaddedWith(data: Bytes, plain: Bytes) {
    && plain <= data && 1 <= |data| - |plain| <= 16
    && forall i :: |plain| <= i < |data| ==> data[i] == |data| - |plain|
  }

  /** Padding fills the last block, and always adds something. */
  lemma PadExact(plain: Bytes)
    ensures PaddedWith(Padded(plain), plain) && |Padded(plain)| % 16 == 0
  {
  }

  /** Unpadding takes off any such padding, from data of any length, and nothing else. */
  lemma UnpadExact(data: Bytes, plain: Bytes)
    ensures Unpad(data) == Ok(plain) <==> PaddedWith(data, plain)
  {
    if data != [] {
      var count := data[|data| - 1];
      if Unpad(data) == Ok(plain) {
        assert |Suffix(data, count)| == count;
        assert forall i :: |plain| <= i < |data| ==> data[i] == Suffix(data, count)[i - |plain|];
      }
      if PaddedWith(data, plain) {
        assert Suffix(data, count) == Repeat(count, count);
        assert data[..|data| - count] == plain;
      }
    }
  }

  lemma PadCount(n: nat, count: nat)
    requires 1 <= count <= 16 && (n + count) % 16 == 0
    ensures count == 16 - n % 16
  {
    assert n + count == n / 16 * 16 + (n % 16 + count);
  }

  lemma PaddedIsPad(data: Bytes, plain: Bytes)
    requires PaddedWith(data, plain) && |data| % 16 == 0
    ensures data == Padded(plain)
  {
    PadExact(plain);
    PadCount(|plain|, |data| - |plain|);
    PadCount(|plain|, |Padded(plain)| - |plain|);
    hide Padded;
    var p := Padded(plain);
    assert |data| == |p|;
    forall i | 0 <= i < |data| ensures data[i] == p[i] {
      if i < |plain| { assert data[i] == plain[i] == p[i]; }
    }
  }

  /** On whole blocks, unpadding accepts exactly what padding produces, and undoes it. */
  lemma UnpadInvertsPad(data: Bytes, plain: Bytes)
    requires |data| % BLOCK == 0
    ensures Unpad(data) == Ok(plain) <==> data == Pad(BLOCK, plain)
  {
    UnpadExact(data, plain);
    PadExact(plain);
    hide Unpad, PaddedWith, Pad;
    if PaddedWith(data, plain) {
      PaddedIsPad(data, plain);
    }
  }

  // ---- CBC (section 6.2 of NIST SP 800-38A) over any block permutation

  datatype BlockCipher = BlockCipher(enc: (Bytes, Bytes) -> Bytes, dec: (Bytes, Bytes) -> Bytes)

  ghost predicate Permutes(c: BlockCipher, key: Bytes) {
    forall b: Bytes | |b| == BLOCK ::
      && |c.enc(key, b)| == BLOCK && c.dec(key, c.enc(key, b)) == b
      && |c.dec(key, b)| == BLOCK && c.enc(key, c.dec(key, b)) == b
  }

  /** Exclusive or of the `n` low bits. */
  function XorBits(a: nat, b: nat, n: nat): nat {
    if n == 0 then 0 else (a + b) % 2 + 2 * XorBits(a / 2, b / 2, n - 1)
  }

  function Power2(n: nat): nat {
    if n == 0 then 1 else 2 * Power2(n - 1)
  }

  /** The lowest bit, and what remains above it. */
  lemma LowBit(a: nat, b: nat, rest: nat)
    ensures ((a + b) % 2 + 2 * rest) / 2 == rest
    ensures ((a + b) % 2 + 2 * rest + b) % 2 == a % 2
  {
    var p, q := a % 2, b % 2;
    assert a == 2 * (a / 2) + p && b == 2 * (b / 2) + q;
    if p == q {
      assert a + b == 2 * (a / 2 + b / 2 + p);
      assert (a + b) % 2 == 0;
    } else {
      assert a + b == 2 * (a / 2 + b / 2) + 1;
      assert (a + b) % 2 == 1;
    }
  }

  lemma {:induction false} XorCancels(a: nat, b: nat, n: nat)
    requires a < Power2(n)
    ensures XorBits(a, b, n) < Power2(n)
    ensures XorBits(XorBits(a, b, n), b, n) == a
  {
    if 0 < n {
      XorCancels(a / 2, b / 2, n - 1);
      LowBit(a, b, XorBits(a / 2, b / 2, n - 1));
    }
  }

  lemma ByteXor(a: byte, b: byte)
    ensures 0 <= XorBits(a, b, 8) < 256
    ensures XorBits(XorBits(a, b, 8), b, 8) == a
  {
    assert Power2(8) == 2 * (2 * (2 * (2 * (2 * (2 * (2 * (2 * Power2(0))))))));
    XorCancels(a, b, 8);
  }

  /** Bit `k` of a number, the lowest being bit 0. */
  function Bit(a: nat, k: nat): nat {
    if k == 0 then a % 2 else Bit(a / 2, k - 1)
  }

  lemma {:induction false} XorExact(a: nat, b: nat, n: nat, k: nat)
    ensures Bit(XorBits(a, b, n), k) == if k < n && Bit(a, k) != Bit(b, k) then 1 else 0
    decreases n, k
  {
    if n == 0 {
      if 0 < k { XorExact(a, b, 0, k - 1); }
    } else {
      LowBit(a, b, XorBits(a / 2, b / 2, n - 1));
      if k == 0 {
        LowBits(a, b);
      } else {
        XorExact(a / 2, b / 2, n - 1, k - 1);
      }
    }
  }

  lemma LowBits(a: nat, b: nat)
    ensures (a + b) % 2 == if a % 2 != b % 2 then 1 else 0
    ensures forall rest: nat :: ((a + b) % 2 + 2 * rest) % 2 == (a + b) % 2
  {
    assert a == 2 * (a / 2) + a % 2 && b == 2 * (b / 2) + b % 2;
  }

  function XorByte(a: byte, b: byte): byte {
    ByteXor(a, b);
    XorBits(a, b, 8)
  }

  function Xor(a: Bytes, b: Bytes): (r: Bytes)
    requires |a| == |b|
    ensures |r| == |a|
  {
    seq(|a|, i requires 0 <= i < |a| => XorByte(a[i], b[i]))
  }

  lemma XorTwice(a: Bytes, b: Bytes)
    requires |a| == |b|
    ensures Xor(Xor(a, b), b) == a
  {
    forall i | 0 <= i < |a| ensures Xor(Xor(a, b), b)[i] == a[i] { ByteXor(a[i], b[i]); }
  }

  function CbcEncrypt(c: BlockCipher, key: Bytes, iv: Bytes, data: Bytes): (r: Bytes)
    requires Permutes(c, key) && |iv| == BLOCK && |data| % BLOCK == 0
    ensures |r| == |data|
    decreases |data|
  {
    if data == [] then []
    else
      var x := c.enc(key, Xor(data[..BLOCK], iv));
      x + CbcEncrypt(c, key, x, data[BLOCK..])
  }

  function CbcDecrypt(c: BlockCipher, key: Bytes, iv: Bytes, data: Bytes): (r: Bytes)
    requires Permutes(c, key) && |iv| == BLOCK && |data| % BLOCK == 0
    ensures |r| == |data|
    decreases |data|
  {
    if data == [] then []
    else Xor(c.dec(key, data[..BLOCK]), iv) + CbcDecrypt(c, key, data[..BLOCK], data[BLOCK..])
  }

  function Block(s: Bytes, i: nat): Bytes
    requires (i + 1) * BLOCK <= |s|
  {
    s[i * BLOCK..(i + 1) * BLOCK]
  }

  /** Each block is combined with the cipher block before it, the first one with the initial
      vector, and enciphered. */
  lemma {:induction false} CbcChains(c: BlockCipher, key: Bytes, iv: Bytes, data: Bytes, i: nat)
    requires Permutes(c, key) && |iv| == BLOCK && |data| % BLOCK == 0 && (i + 1) * BLOCK <= |data|
    ensures var r := CbcEncrypt(c, key, iv, data);
            Block(r, i) == c.enc(key, Xor(Block(data, i), if i == 0 then iv else Block(r, i - 1)))
    decreases i
  {
    hide Xor, Permutes;
    var x := c.enc(key, Xor(data[..BLOCK], iv));
    assert |x| == BLOCK by { EncLength(c, key, Xor(data[..BLOCK], iv)); }
    var rest := data[BLOCK..];
    var r, tail := CbcEncrypt(c, key, iv, data), CbcEncrypt(c, key, x, rest);
    assert r == x + tail;
    if i == 0 {
      assert Block(r, 0) == x && Block(data, 0) == data[..BLOCK];
    } else {
      CbcChains(c, key, x, rest, i - 1);
      BlockBehind(x, tail, i);
      assert data == data[..BLOCK] + rest;
      BlockBehind(data[..BLOCK], rest, i);
      if i == 1 {
        assert Block(r, 0) == x;
      } else {
        BlockBehind(x, tail, i - 1);
      }
    }
  }

  lemma EncLength(c: BlockCipher, key: Bytes, b: Bytes)
    requires Permutes(c, key) && |b| == BLOCK
    ensures |c.enc(key, b)| == BLOCK
  {
  }

  lemma BlockBehind(x: Bytes, rest: Bytes, i: nat)
    requires |x| == BLOCK && 0 < i && i * BLOCK <= |rest|
    ensures (i + 1) * BLOCK <= |x + rest| && Block(x + rest, i) == Block(rest, i - 1)
  {
  }

  lemma CbcBlock(c: BlockCipher, key: Bytes, iv: Bytes, head: Bytes, rest: Bytes)
    requires Permutes(c, key) && |iv| == |head| == BLOCK && |rest| % BLOCK == 0
    ensures CbcDecrypt(c, key, iv, head + rest) == Xor(c.dec(key, head), iv) + CbcDecrypt(c, key, head, rest)
    ensures var x := c.enc(key, Xor(head, iv));
            CbcEncrypt(c, key, iv, head + rest) == x + CbcEncrypt(c, key, x, rest)
  {
    assert (head + rest)[..BLOCK] == head && (head + rest)[BLOCK..] == rest;
  }

  /** CBC decryption undoes encryption, */
  lemma {:induction false} CbcDecryptEncrypt(c: BlockCipher, key: Bytes, iv: Bytes, data: Bytes)
    requires Permutes(c, key) && |iv| == BLOCK && |data| % BLOCK == 0
    ensures CbcDecrypt(c, key, iv, CbcEncrypt(c, key, iv, data)) == data
    decreases |data|
  {
    if data != [] {
      hide CbcEncrypt, CbcDecrypt, Xor;
      var head, rest := data[..BLOCK], data[BLOCK..];
      assert data == head + rest;
      var x := c.enc(key, Xor(head, iv));
      CbcBlock(c, key, iv, head, rest);
      CbcBlock(c, key, iv, x, CbcEncrypt(c, key, x, rest));
      XorTwice(head, iv);
      CbcDecryptEncrypt(c, key, x, rest);
    }
  }

  /** and encryption undoes decryption. */
  lemma {:induction false} CbcEncryptDecrypt(c: BlockCipher, key: Bytes, iv: Bytes, data: Bytes)
    requires Permutes(c, key) && |iv| == BLOCK && |data| % BLOCK == 0
    ensures CbcEncrypt(c, key, iv, CbcDecrypt(c, key, iv, data)) == data
    decreases |data|
  {
    if data != [] {
      hide CbcEncrypt, CbcDecrypt, Xor;
      var head, rest := data[..BLOCK], data[BLOCK..];
      assert data == head + rest;
      CbcBlock(c, key, iv, head, rest);
      CbcBlock(c, key, iv, Xor(c.dec(key, head), iv), CbcDecrypt(c, key, head, rest));
      XorTwice(c.dec(key, head), iv);
      CbcEncryptDecrypt(c, key, head, rest);
    }
  }

  // ---- the legacy format

  function Substitute(s: string, a: char, b: char): string {
    seq(|s|, i requires 0 <= i < |s| => if s[i] == a then b else s[i])
  }

  /** Historical truncation: a key of exactly 24 or 32 bytes loses its end too. */
  function NormalizeKey(key: Bytes): Result<Bytes, Failure> {
    var size := if 32 < |key| then 32 else if 24 < |key| then 24 else 16;
    if |key| < size then Err(BadKey) else Ok(key[..size])
  }

  /** The key in use is the longest AES-sized proper prefix, or all of a 16-byte key. */
  lemma NormalizedKey(key: Bytes)
    ensures NormalizeKey(key).Ok? <==> 16 <= |key|
    ensures NormalizeKey(key).Ok? ==>
              var k := NormalizeKey(key).value;
              && k <= key && |k| in {16, 24, 32}
              && (k == key <==> |key| == 16)
              && (24 < |key| ==> 24 <= |k|) && (32 < |key| ==> 32 <= |k|)
  {
  }

  function Encrypt(c: BlockCipher, key: Bytes, iv: Bytes, data: Bytes): Result<string, Failure>
    requires |iv| == BLOCK
    requires NormalizeKey(key).Ok? ==> Permutes(c, NormalizeKey(key).value)
  {
    match NormalizeKey(key)
    case Err(e) => Err(e)
    case Ok(k) => Ok(Substitute(Encode(iv + CbcEncrypt(c, k, iv, Padded(data))), '/', '.'))
  }

  /** The bytes inside a legacy token. */
  function Payload(token: string): Option<Bytes> {
    Decode(Substitute(Substitute(token, ' ', '+'), '.', '/'))
  }

  function Decrypt(c: BlockCipher, key: Bytes, token: string): Result<Bytes, Failure>
    requires NormalizeKey(key).Ok? ==> Permutes(c, NormalizeKey(key).value)
  {
    match Payload(token)
    case None => Err(BadEncoding)
    case Some(data) =>
      if |data| < 2 * BLOCK || |data| % BLOCK != 0 then Err(BadLength)
      else match NormalizeKey(key)
        case Err(e) => Err(e)
        case Ok(k) => Unpad(CbcDecrypt(c, k, data[..BLOCK], data[BLOCK..]))
  }

  /** No encoding contains a space or a dot, so the substitution loses nothing. */
  lemma PayloadOfEncoding(b: Bytes)
    ensures Payload(Substitute(Encode(b), '/', '.')) == Some(b)
  {
    BodyShape(b);
    DecodeEncode(b);
    var s := Encode(b);
    forall i | 0 <= i < |s| ensures s[i] != ' ' && s[i] != '.' {
      if i < |Body(b)| { assert s[i] in Body(b); }
    }
    assert Substitute(Substitute(Substitute(s, '/', '.'), ' ', '+'), '.', '/') == s;
  }

  lemma DecryptAccepts(c: BlockCipher, k: Bytes, iv: Bytes, data: Bytes)
    requires Permutes(c, k) && |iv| == BLOCK
    ensures var p := iv + CbcEncrypt(c, k, iv, Padded(data));
            && 2 * BLOCK <= |p| && |p| % BLOCK == 0
            && Unpad(CbcDecrypt(c, k, p[..BLOCK], p[BLOCK..])) == Ok(data)
  {
    hide Unpad, Permutes, CbcEncrypt, CbcDecrypt;
    var padded := Padded(data);
    var body := CbcEncrypt(c, k, iv, padded);
    CbcDecryptEncrypt(c, k, iv, padded);
    assert (iv + body)[..BLOCK] == iv && (iv + body)[BLOCK..] == body;
    UnpadInvertsPad(padded, data);
  }

  lemma DecryptAccepted(c: BlockCipher, k: Bytes, iv: Bytes, body: Bytes, data: Bytes)
    requires Permutes(c, k) && |iv| == BLOCK && |body| % BLOCK == 0
    requires Unpad(CbcDecrypt(c, k, iv, body)) == Ok(data)
    ensures body == CbcEncrypt(c, k, iv, Padded(data))
  {
    hide Unpad, Permutes, CbcEncrypt, CbcDecrypt;
    CbcEncryptDecrypt(c, k, iv, body);
    UnpadInvertsPad(CbcDecrypt(c, k, iv, body), data);
  }

  /** A legacy token is accepted, with plaintext `data`, exactly when its bytes are some IV
      followed by the CBC encryption of the padded data under that IV. */
  lemma DecryptExact(c: BlockCipher, key: Bytes, token: string, data: Bytes)
    requires NormalizeKey(key).Ok? ==> Permutes(c, NormalizeKey(key).value)
    ensures Decrypt(c, key, token) == Ok(data) <==>
            && NormalizeKey(key).Ok?
            && exists iv: Bytes :: |iv| == BLOCK
                && Payload(token) == Some(iv + CbcEncrypt(c, NormalizeKey(key).value, iv, Padded(data)))
  {
    hide Unpad, Permutes, CbcEncrypt, CbcDecrypt, Payload, NormalizeKey;
    if NormalizeKey(key).Ok? {
      var k := NormalizeKey(key).value;
      forall iv: Bytes | |iv| == BLOCK && Payload(token) == Some(iv + CbcEncrypt(c, k, iv, Padded(data)))
        ensures Decrypt(c, key, token) == Ok(data)
      {
        DecryptAccepts(c, k, iv, data);
      }
      if Decrypt(c, key, token) == Ok(data) {
        var p := Payload(token).value;
        DecryptAccepted(c, k, p[..BLOCK], p[BLOCK..], data);
        assert p == p[..BLOCK] + p[BLOCK..];
      }
    }
  }

  /** For every usable key, IV and data, decryption undoes encryption. */
  lemma LegacyRoundTrip(c: BlockCipher, key: Bytes, iv: Bytes, data: Bytes)
    requires BLOCK <= |key| && |iv| == BLOCK && Permutes(c, NormalizeKey(key).value)
    ensures Encrypt(c, key, iv, data).Ok?
    ensures Decrypt(c, key, Encrypt(c, key, iv, data).value) == Ok(data)
  {
    var k := NormalizeKey(key).value;
    PayloadOfEncoding(iv + CbcEncrypt(c, k, iv, Padded(data)));
    DecryptExact(c, key, Encrypt(c, key, iv, data).value, data);
  }

  lemma PayloadSkips(a: string, x: char, b: string)
    requires Foreign(x) && x != ' ' && x != '.'
    ensures Payload(a + [x] + b) == Payload(a + b)
  {
    var a', b' := Substitute(Substitute(a, ' ', '+'), '.', '/'), Substitute(Substitute(b, ' ', '+'), '.', '/');
    assert Substitute(Substitute(a + [x] + b, ' ', '+'), '.', '/') == a' + [x] + b';
    assert Substitute(Substitute(a + b, ' ', '+'), '.', '/') == a' + b';
    hide Substitute, Foreign, Scan;
    ScanSkips(a', x, b');
  }

  /** The decoder being lenient, a legacy token has many spellings: a foreign character
      anywhere in it, or taken out of it, changes nothing. */
  lemma LegacySpellings(c: BlockCipher, key: Bytes, a: string, x: char, b: string)
    requires NormalizeKey(key).Ok? ==> Permutes(c, NormalizeKey(key).value)
    requires Foreign(x) && x != ' ' && x != '.'
    ensures Decrypt(c, key, a + [x] + b) == Decrypt(c, key, a + b)
  {
    hide Payload;
    PayloadSkips(a, x, b);
  }

  // ---- the authenticated format

  /** seal: key, nonce, header, data -> ciphertext and tag; open is its partial inverse. */
  datatype Eax = Eax(seal: (Bytes, Bytes, string, Bytes) -> (Bytes, Bytes),
                     open: (Bytes, Bytes, string, Bytes, Bytes) -> Option<Bytes>)

  ghost predicate Authenticates(e: Eax, key: Bytes) {
    && (forall n: Bytes, h, d :: |e.seal(key, n, h, d).1| == 16)
    && (forall n: Bytes, h, d, x, t :: e.open(key, n, h, x, t) == Some(d) <==> e.seal(key, n, h, d) == (x, t))
  }

  predicate AuthenticatedKey(key: Bytes) {
    |key| == 16 || |key| == 24 || |key| == 32
  }

  function EncryptAuthenticated(e: Eax, key: Bytes, nonce: Bytes, data: Bytes): Result<string, Failure> {
    if !AuthenticatedKey(key) then Err(BadKey)
    else
      var (ciphertext, tag) := e.seal(key, nonce, AUTH_PREFIX, data);
      Ok(AUTH_PREFIX + Encode(nonce + tag + ciphertext))
  }

  function DecryptAuthenticated(e: Eax, key: Bytes, token: string): Result<Bytes, Failure> {
    if !(AUTH_PREFIX <= token) then Err(BadPrefix)
    else
      var encoded := token[|AUTH_PREFIX|..];
      match Decode(encoded)
      case None => Err(BadEncoding)
      case Some(payload) =>
        if Encode(payload) != encoded || |payload| < 32 then Err(BadPayload)
        else if !AuthenticatedKey(key) then Err(BadKey)
        else match e.open(key, payload[..16], AUTH_PREFIX, payload[32..], payload[16..32])
          case None => Err(BadTag)
          case Some(data) => Ok(data)
  }

  /** The layout of an authenticated token: the prefix, then the encoding of a 16-byte nonce,
      the 16-byte tag and the ciphertext, sealed under the prefix as associated data. A key of
      any other length than AES has is refused, both ways. */
  lemma AuthenticatedLayout(e: Eax, key: Bytes, nonce: Bytes, data: Bytes)
    requires Authenticates(e, key) && |nonce| == 16
    ensures EncryptAuthenticated(e, key, nonce, data).Ok? <==> |key| in {16, 24, 32}
    ensures forall token :: |key| !in {16, 24, 32} ==> DecryptAuthenticated(e, key, token).Err?
    ensures EncryptAuthenticated(e, key, nonce, data).Ok? ==>
              var token := EncryptAuthenticated(e, key, nonce, data).value;
              && "dwho-eax-v1:" <= token && Decode(token[12..]).Some?
              && var payload := Decode(token[12..]).value;
              && 32 <= |payload| && payload[..16] == nonce
              && e.seal(key, nonce, "dwho-eax-v1:", data) == (payload[32..], payload[16..32])
  {
    hide Encode, Decode;
    if AuthenticatedKey(key) {
      var (ciphertext, tag) := e.seal(key, nonce, AUTH_PREFIX, data);
      var payload := nonce + tag + ciphertext;
      DecodeEncode(payload);
      assert (AUTH_PREFIX + Encode(payload))[12..] == Encode(payload);
      assert payload[..16] == nonce && payload[16..32] == tag && payload[32..] == ciphertext;
    }
  }

  lemma AuthenticatedAccepts(e: Eax, key: Bytes, nonce: Bytes, token: string, data: Bytes)
    requires Authenticates(e, key) && |nonce| == 16
    requires EncryptAuthenticated(e, key, nonce, data) == Ok(token)
    ensures DecryptAuthenticated(e, key, token) == Ok(data)
  {
    hide Encode, Decode;
    var (ciphertext, tag) := e.seal(key, nonce, AUTH_PREFIX, data);
    var payload := nonce + tag + ciphertext;
    assert token[|AUTH_PREFIX|..] == Encode(payload);
    DecodeEncode(payload);
    assert payload[..16] == nonce && payload[16..32] == tag && payload[32..] == ciphertext;
  }

  lemma AuthenticatedAccepted(e: Eax, key: Bytes, token: string, data: Bytes)
    requires Authenticates(e, key) && DecryptAuthenticated(e, key, token) == Ok(data)
    ensures var payload := Decode(token[|AUTH_PREFIX|..]);
            && payload.Some? && 32 <= |payload.value|
            && EncryptAuthenticated(e, key, payload.value[..16], data) == Ok(token)
  {
    hide Encode, Decode;
    var payload := Decode(token[|AUTH_PREFIX|..]).value;
    assert e.seal(key, payload[..16], AUTH_PREFIX, data) == (payload[32..], payload[16..32]);
    assert payload == payload[..16] + payload[16..32] + payload[32..];
    assert token == AUTH_PREFIX + token[|AUTH_PREFIX|..];
  }

  /** Parser and printer are mutual inverses: a token is accepted with plaintext `data`
      exactly when it is the very string encryption prints for `data` under some nonce. */
  lemma AuthenticatedExact(e: Eax, key: Bytes, token: string, data: Bytes)
    requires Authenticates(e, key)
    ensures DecryptAuthenticated(e, key, token) == Ok(data) <==>
            exists nonce: Bytes :: |nonce| == 16 && EncryptAuthenticated(e, key, nonce, data) == Ok(token)
  {
    hide EncryptAuthenticated, DecryptAuthenticated;
    forall nonce: Bytes | |nonce| == 16 && EncryptAuthenticated(e, key, nonce, data) == Ok(token)
      ensures DecryptAuthenticated(e, key, token) == Ok(data)
    {
      AuthenticatedAccepts(e, key, nonce, token, data);
    }
    if DecryptAuthenticated(e, key, token) == Ok(data) {
      AuthenticatedAccepted(e, key, token, data);
    }
  }

  /** Lenient decoding notwithstanding, two accepted tokens with one payload are one token. */
  lemma AuthenticatedCanonical(e: Eax, key: Bytes, t: string, u: string)
    requires DecryptAuthenticated(e, key, t).Ok? && DecryptAuthenticated(e, key, u).Ok?
    ensures Decode(t[|AUTH_PREFIX|..]) == Decode(u[|AUTH_PREFIX|..]) <==> t == u
  {
    assert t == AUTH_PREFIX + t[|AUTH_PREFIX|..];
    assert u == AUTH_PREFIX + u[|AUTH_PREFIX|..];
  }
}
