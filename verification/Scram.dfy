/** SCRAM-SHA-256, internal/auth/scram.go, against section 2.2 (Hi) and section 3 (the exchange)
    of RFC 5802. The hash, the HMAC and base64 are parameters. */
module Scram {
  import opened Bytes
  import opened Digits

  const HASH_SIZE: nat := 32
  const COMMA: byte := 0x2C
  const EQUALS: byte := 0x3D

  /** HMAC-SHA-256, SHA-256 and base64. decode may fail. */
  datatype Primitives = Primitives(
    hmac: (bytes, bytes) -> bytes,
    hash: bytes -> bytes,
    encode: bytes -> bytes,
    decode: bytes -> Option<bytes>)

  // Sizes; decoding inverts encoding; encoded text has no comma and is empty only for nothing.
  ghost predicate Sound(p: Primitives)
  {
    && (forall k, m :: |p.hmac(k, m)| == HASH_SIZE)
    && (forall b :: |p.hash(b)| == HASH_SIZE)
    && (forall b :: p.decode(p.encode(b)) == Some(b))
    && (forall b :: COMMA !in p.encode(b) && (b != [] ==> p.encode(b) != []))
  }

  // ---- Exclusive or ----

  function Pow2(k: nat): (p: nat)
    ensures p >= 1
  {
    if k == 0 then 1 else 2 * Pow2(k - 1)
  }

  // Bit by bit on the low k bits.
  function XorBits(a: nat, b: nat, k: nat): (x: nat)
    ensures x < Pow2(k)
  {
    if k == 0 then 0 else (if a % 2 == b % 2 then 0 else 1) + 2 * XorBits(a / 2, b / 2, k - 1)
  }

  function XorByte(a: byte, b: byte): byte
  {
    assert Pow2(8) == 256 by { assert Pow2(2) == 4; assert Pow2(4) == 16; assert Pow2(6) == 64; }
    XorBits(a, b, 8)
  }

  function Xor(a: bytes, b: bytes): (x: bytes)
    requires |a| <= |b|
    ensures |x| == |a|
  {
    seq(|a|, i requires 0 <= i < |a| => XorByte(a[i], b[i]))
  }

  lemma {:induction false} XorBitsCancels(a: nat, b: nat, k: nat)
    requires a < Pow2(k)
    ensures XorBits(XorBits(a, b, k), b, k) == a
  {
    if k > 0 {
      XorBitsCancels(a / 2, b / 2, k - 1);
      var x := XorBits(a, b, k);
      assert x / 2 == XorBits(a / 2, b / 2, k - 1);
      assert x % 2 == if a % 2 == b % 2 then 0 else 1;
    }
  }

  lemma XorCancels(a: bytes, b: bytes)
    requires |a| <= |b|
    ensures Xor(Xor(a, b), b) == a
  {
    forall i | 0 <= i < |a| ensures Xor(Xor(a, b), b)[i] == a[i] {
      assert Pow2(8) == 256 by { assert Pow2(2) == 4; assert Pow2(4) == 16; assert Pow2(6) == 64; }
      XorBitsCancels(a[i], b[i], 8);
    }
  }

  /** Bit i of the result is set exactly when bit i of one operand only is. */
  lemma {:induction false} XorBitAt(a: nat, b: nat, k: nat, i: nat)
    requires i < k
    ensures XorBits(a, b, k) / Pow2(i) % 2 == 1 <==> a / Pow2(i) % 2 != b / Pow2(i) % 2
  {
    var x := XorBits(a, b, k);
    assert x / 2 == XorBits(a / 2, b / 2, k - 1) && x % 2 == if a % 2 == b % 2 then 0 else 1;
    if i > 0 {
      XorBitAt(a / 2, b / 2, k - 1, i - 1);
      HalveTwice(x, i);
      HalveTwice(a, i);
      HalveTwice(b, i);
    }
  }

  lemma HalveTwice(a: nat, i: nat)
    requires i > 0
    ensures a / Pow2(i) == a / 2 / Pow2(i - 1)
  {
    DivDiv(a, Pow2(i - 1));
  }

  lemma DivDiv(a: nat, p: nat)
    requires p > 0
    ensures a / (2 * p) == a / 2 / p
  {
    var h, b := a / 2, a % 2;
    var q, r := h / p, h % p;
    Division(h, p);
    MulTwo(q, p);
    Sum(a, h, b, q * p, r, q * (2 * p));
    Quotient(a, 2 * p, q, 2 * r + b);
  }

  lemma Division(h: nat, p: nat)
    requires p > 0
    ensures h == h / p * p + h % p && 0 <= h % p < p
  {
  }

  lemma Sum(a: int, h: int, b: int, x: int, r: int, y: int)
    requires a == 2 * h + b && h == x + r && y == 2 * x
    ensures a == y + (2 * r + b)
  {
  }

  lemma MulTwo(q: nat, p: nat)
    ensures q * (2 * p) == 2 * (q * p)
  {
  }

  lemma Quotient(a: nat, d: nat, q: nat, s: nat)
    requires d > 0 && s < d && a == q * d + s
    ensures a / d == q
  {
    var e := a / d - q;
    assert e * d == s - a % d;
    AtLeastOnce(e, d);
  }

  lemma AtLeastOnce(e: int, d: int)
    requires d > 0
    ensures e >= 1 ==> e * d >= d
    ensures e <= -1 ==> e * d <= -d
  {
  }

  // xorBytes; the source indexes b by the positions of a.
  method XorBytes(a: bytes, b: bytes) returns (r: bytes)
    requires |a| <= |b|
    ensures r == Xor(a, b)
  {
    var out := new byte[|a|](_ => 0);
    for i := 0 to |a|
      invariant forall k :: 0 <= k < i ==> out[k] == XorByte(a[k], b[k])
    {
      out[i] := XorByte(a[i], b[i]);
    }
    r := out[..];
  }

  // ---- Hi ----

  // U1 = HMAC(str, salt + INT(block)), Uk = HMAC(str, U(k-1)).
  function U(p: Primitives, str: bytes, seed: bytes, k: nat): bytes
    requires k >= 1
  {
    if k == 1 then p.hmac(str, seed) else p.hmac(str, U(p, str, seed, k - 1))
  }

  // U1 xor ... xor Uk.
  function HiFrom(p: Primitives, str: bytes, seed: bytes, k: nat): (h: bytes)
    requires k >= 1 && forall key, m :: |p.hmac(key, m)| == HASH_SIZE
    ensures |h| == HASH_SIZE
  {
    if k == 1 then U(p, str, seed, 1) else Xor(HiFrom(p, str, seed, k - 1), U(p, str, seed, k))
  }

  // Hi(str, salt, i) of RFC 5802.
  function Hi(p: Primitives, str: bytes, salt: bytes, i: nat): (h: bytes)
    requires i >= 1 && Sound(p)
    ensures |h| == HASH_SIZE
  {
    HiFrom(p, str, salt + Put32(1), i)
  }

  /** As section 2.2 of RFC 5802 writes it out: one HMAC of the salt followed by the number one, and
      from there each HMAC of the one before, all of them combined by exclusive or. */
  lemma HiWrittenOut(p: Primitives, str: bytes, salt: bytes, i: nat)
    requires i >= 1 && Sound(p)
    ensures Hi(p, str, salt, 1) == p.hmac(str, salt + [0, 0, 0, 1]) == U(p, str, salt + [0, 0, 0, 1], 1)
    ensures |U(p, str, salt + [0, 0, 0, 1], i + 1)| == HASH_SIZE
    ensures Hi(p, str, salt, i + 1) == Xor(Hi(p, str, salt, i), U(p, str, salt + [0, 0, 0, 1], i + 1))
    ensures U(p, str, salt + [0, 0, 0, 1], i + 1) == p.hmac(str, U(p, str, salt + [0, 0, 0, 1], i))
  {
    assert Put32(1) == [0, 0, 0, 1];
    hide Xor, Put32;
  }

  // The blocks of PBKDF2, end to end.
  function Blocks(p: Primitives, str: bytes, salt: bytes, i: nat, n: nat): (b: bytes)
    requires i >= 1 && Sound(p)
    ensures |b| == n * HASH_SIZE
  {
    if n == 0 then [] else Blocks(p, str, salt, i, n - 1) + HiFrom(p, str, salt + Put32(n), i)
  }

  /** T accumulates the exclusive or of the U's in place. */
  method Block(p: Primitives, password: bytes, seed: bytes, iter: int, T: array<byte>)
    requires Sound(p) && T.Length == HASH_SIZE
    modifies T
    ensures T[..] == HiFrom(p, password, seed, if iter >= 1 then iter else 1)
  {
    hide Sound;
    SoundHmac(p);
    var u := p.hmac(password, seed);
    forall j | 0 <= j < HASH_SIZE { T[j] := u[j]; }
    assert T[..] == u;
    var i := 1;
    while i < iter
      invariant 1 <= i && (iter >= 1 ==> i <= iter) && (iter < 1 ==> i == 1)
      invariant u == U(p, password, seed, i) && |u| == HASH_SIZE && T[..] == HiFrom(p, password, seed, i)
    {
      u := p.hmac(password, u);
      ghost var was := T[..];
      for j := 0 to HASH_SIZE
        invariant |was| == HASH_SIZE && |u| == HASH_SIZE
        invariant forall k :: 0 <= k < HASH_SIZE ==> T[k] == if k < j then XorByte(was[k], u[k]) else was[k]
      {
        T[j] := XorByte(T[j], u[j]);
      }
      assert T[..] == Xor(was, u);
      i := i + 1;
    }
  }

  lemma SoundHmac(p: Primitives)
    requires Sound(p)
    ensures forall k, m :: |p.hmac(k, m)| == HASH_SIZE
  {
  }

  /** For the key length of SCRAM the loop computes Hi; in general, a prefix of the blocks. */
  method Pbkdf2(p: Primitives, password: bytes, salt: bytes, iter: int, keyLen: nat) returns (key: bytes)
    requires Sound(p)
    ensures |key| == keyLen
    ensures key <= Blocks(p, password, salt, if iter >= 1 then iter else 1, (keyLen + HASH_SIZE - 1) / HASH_SIZE)
    ensures keyLen == HASH_SIZE && iter >= 1 ==> key == Hi(p, password, salt, iter)
  {
    var numBlocks := (keyLen + HASH_SIZE - 1) / HASH_SIZE;
    var out: bytes := [];
    ghost var n := if iter >= 1 then iter else 1;
    var T := new byte[HASH_SIZE](_ => 0);
    for block := 1 to numBlocks + 1
      invariant out == Blocks(p, password, salt, n, block - 1)
      invariant fresh(T)
    {
      Block(p, password, salt + Put32(block), iter, T);
      out := out + T[..];
    }
    key := out[..keyLen];
    if keyLen == HASH_SIZE {
      OneBlock(p, password, salt, n);
    }
  }

  lemma OneBlock(p: Primitives, str: bytes, salt: bytes, i: nat)
    requires i >= 1 && Sound(p)
    ensures Blocks(p, str, salt, i, 1) == Hi(p, str, salt, i)
  {
    assert Blocks(p, str, salt, i, 0) == [];
    assert [] + Hi(p, str, salt, i) == Hi(p, str, salt, i);
  }

  // ---- Messages ----

  // "n=,r=", "n,,", "c=biws,r=", ",p=", "Client Key", "Server Key".
  const BARE_PREFIX: bytes := [0x6E, 0x3D, 0x2C, 0x72, 0x3D]
  const GS2_HEADER: bytes := [0x6E, 0x2C, 0x2C]
  const BINDING: bytes := [0x63, 0x3D, 0x62, 0x69, 0x77, 0x73]
  const CLIENT_KEY: bytes := [0x43, 0x6C, 0x69, 0x65, 0x6E, 0x74, 0x20, 0x4B, 0x65, 0x79]
  const SERVER_KEY: bytes := [0x53, 0x65, 0x72, 0x76, 0x65, 0x72, 0x20, 0x4B, 0x65, 0x79]
  const LOWER_E: byte := 0x65
  const LOWER_I: byte := 0x69
  const LOWER_P: byte := 0x70
  const LOWER_R: byte := 0x72
  const LOWER_S: byte := 0x73
  const LOWER_V: byte := 0x76

  // strings.Split on commas.
  function Split(s: bytes): (parts: seq<bytes>)
    ensures |parts| >= 1
  {
    if s == [] then [[]]
    else
      var rest := Split(s[1..]);
      if s[0] == COMMA then [[]] + rest else [[s[0]] + rest[0]] + rest[1..]
  }

  // Comma-separated text.
  function Attribute(name: byte, value: bytes): bytes { [name, EQUALS] + value }

  lemma {:induction false} SplitOne(a: bytes)
    requires COMMA !in a
    ensures Split(a) == [a]
  {
    if a != [] {
      SplitOne(a[1..]);
      assert [a[0]] + a[1..] == a;
    }
  }

  lemma {:induction false} SplitAt(a: bytes, b: bytes)
    requires COMMA !in a
    ensures Split(a + [COMMA] + b) == [a] + Split(b)
  {
    var s := a + [COMMA] + b;
    if a == [] {
      assert s[1..] == b;
    } else {
      assert s[1..] == a[1..] + [COMMA] + b;
      SplitAt(a[1..], b);
      assert [a[0]] + a[1..] == a;
      assert ([a[1..]] + Split(b))[1..] == Split(b);
    }
  }

  predicate HasName(part: bytes, name: byte) { |part| >= 2 && part[0] == name && part[1] == EQUALS }

  // strconv.Atoi on a 64-bit platform.
  function Atoi(s: bytes): Option<int>
  {
    var signed := s != [] && (s[0] == MINUS || s[0] == 0x2B);
    var digits := if signed then s[1..] else s;
    if digits == [] || !AllDigits(digits) then None
    else
      var n: int := Value(digits);
      var v := if signed && s[0] == MINUS then -n else n;
      if -0x8000_0000_0000_0000 <= v < 0x8000_0000_0000_0000 then Some(v) else None
  }

  lemma AtoiDecimal(n: nat)
    requires n < 0x8000_0000_0000_0000
    ensures Atoi(Decimal(n)) == Some(n)
  {
    assert IsDigit(Decimal(n)[0]);
  }

  // ---- parseServerFirst ----

  datatype First = First(r: bytes, salt: bytes, iter: int)

  // The last value of each attribute; None when an iteration count is not a number.
  function Collect(parts: seq<bytes>): Option<First>
  {
    if parts == [] then Some(First([], [], 0))
    else
      var n := |parts| - 1;
      var before, kv := Collect(parts[..n]), parts[n];
      if before.None? then None
      else if HasName(kv, LOWER_R) then Some(before.value.(r := kv[2..]))
      else if HasName(kv, LOWER_S) then Some(before.value.(salt := kv[2..]))
      else if HasName(kv, LOWER_I) then
        if Atoi(kv[2..]).None? then None else Some(before.value.(iter := Atoi(kv[2..]).value))
      else before
  }

  function ParseFirst(s: bytes): Option<First>
  {
    var f := Collect(Split(s));
    if f.None? || f.value.r == [] || f.value.salt == [] || f.value.iter <= 0 then None else f
  }

  lemma {:induction false} CollectFails(parts: seq<bytes>, k: nat)
    requires k <= |parts| && Collect(parts[..k]).None?
    ensures Collect(parts).None?
    decreases |parts|
  {
    hide Atoi;
    if k == |parts| {
      assert parts[..k] == parts;
    } else {
      var n := |parts| - 1;
      assert parts[..n][..k] == parts[..k];
      CollectFails(parts[..n], k);
    }
  }

  method ParseServerFirst(s: bytes) returns (f: Option<First>)
    ensures f == ParseFirst(s)
  {
    hide Atoi;
    var parts := Split(s);
    var r, salt, iter := [], [], 0;
    for i := 0 to |parts|
      invariant Collect(parts[..i]) == Some(First(r, salt, iter))
    {
      var kv := parts[i];
      assert parts[..i + 1][..i] == parts[..i];
      if |kv| < 2 || kv[1] != EQUALS { continue; }
      if kv[0] == LOWER_R {
        r := kv[2..];
      } else if kv[0] == LOWER_S {
        salt := kv[2..];
      } else if kv[0] == LOWER_I {
        var n := Atoi(kv[2..]);
        if n.None? {
          CollectFails(parts, i + 1);
          return None;
        }
        iter := n.value;
      }
    }
    assert parts[..|parts|] == parts;
    if r == [] || salt == [] || iter <= 0 { return None; }
    f := Some(First(r, salt, iter));
  }

  /** Of several values for an attribute the last one counts. */
  lemma {:induction false} LastWins(parts: seq<bytes>, k: nat)
    requires k < |parts| && Collect(parts).Some? && |parts[k]| >= 2
    requires forall i :: k < i < |parts| ==> |parts[i]| < 2 || parts[i][..2] != parts[k][..2]
    ensures parts[k][..2] == Ascii("r=") ==> Collect(parts).value.r == parts[k][2..]
    ensures parts[k][..2] == Ascii("s=") ==> Collect(parts).value.salt == parts[k][2..]
    ensures parts[k][..2] == Ascii("i=") ==> Some(Collect(parts).value.iter) == Atoi(parts[k][2..])
    decreases |parts|
  {
    hide Atoi;
    var n := |parts| - 1;
    assert Ascii("r=") == [LOWER_R, EQUALS] && Ascii("s=") == [LOWER_S, EQUALS] && Ascii("i=") == [LOWER_I, EQUALS];
    if k < n {
      assert forall i :: 0 <= i < n ==> parts[..n][i] == parts[i];
      LastWins(parts[..n], k);
      Names(parts[n], parts[k]);
    } else {
      Names(parts[n], parts[n]);
    }
  }

  lemma Names(a: bytes, b: bytes)
    requires |b| >= 2
    ensures |a| >= 2 && a[..2] != b[..2] ==> a[0] != b[0] || a[1] != b[1]
    ensures forall name :: HasName(b, name) <==> b[..2] == [name, EQUALS]
  {
  }

  // ---- The client ----

  function BareFirst(nonce: bytes): bytes { BARE_PREFIX + nonce }

  function WithoutProof(r: bytes): bytes { BINDING + [COMMA] + Attribute(LOWER_R, r) }

  function AuthMessage(nonce: bytes, serverFirst: bytes, r: bytes): bytes
  {
    BareFirst(nonce) + [COMMA] + serverFirst + [COMMA] + WithoutProof(r)
  }

  datatype Reply = Reply(final: bytes, serverSig: bytes)

  // What a client with this password and nonce answers to server-first, and expects back.
  function Answer(p: Primitives, password: bytes, nonce: bytes, serverFirst: bytes): Option<Reply>
    requires Sound(p)
  {
    var f := ParseFirst(serverFirst);
    if f.None? || !(nonce <= f.value.r) || p.decode(f.value.salt).None? then None
    else
      var salted := Hi(p, password, p.decode(f.value.salt).value, f.value.iter);
      var clientKey := p.hmac(salted, CLIENT_KEY);
      var auth := AuthMessage(nonce, serverFirst, f.value.r);
      var proof := Xor(clientKey, p.hmac(p.hash(clientKey), auth));
      Some(Reply(
        WithoutProof(f.value.r) + [COMMA] + Attribute(LOWER_P, p.encode(proof)),
        p.hmac(p.hmac(salted, SERVER_KEY), auth)))
  }

  class Client {
    const p: Primitives
    const password: bytes
    const nonce: bytes
    var clientFirstBare: bytes
    var serverFirst: bytes
    var serverSig: bytes

    constructor (p: Primitives, password: bytes, nonce: bytes)
      ensures this.p == p && this.password == password && this.nonce == nonce
    {
      this.p, this.password, this.nonce := p, password, nonce;
      clientFirstBare, serverFirst, serverSig := [], [], [];
    }

    method ClientFirst() returns (msg: bytes)
      modifies this
      ensures clientFirstBare == BareFirst(nonce) && msg == GS2_HEADER + clientFirstBare
      ensures serverFirst == old(serverFirst) && serverSig == old(serverSig)
    {
      clientFirstBare := BARE_PREFIX + nonce;
      msg := GS2_HEADER + clientFirstBare;
    }

    /** After ClientFirst, the reply to any server-first message. */
    method ClientFinal(first: bytes) returns (msg: Option<bytes>)
      requires Sound(p) && clientFirstBare == BareFirst(nonce)
      modifies this
      ensures serverFirst == first && clientFirstBare == old(clientFirstBare)
      ensures match Answer(p, password, nonce, first)
              case None => msg == None && serverSig == old(serverSig)
              case Some(reply) => msg == Some(reply.final) && serverSig == reply.serverSig
    {
      hide ParseFirst, Blocks, Hi, Xor;
      serverFirst := first;
      var f := ParseServerFirst(serverFirst);
      if f.None? { return None; }
      if !(nonce <= f.value.r) { return None; }
      var salt := p.decode(f.value.salt);
      if salt.None? { return None; }
      IterPositive(first);
      var salted := Pbkdf2(p, password, salt.value, f.value.iter, HASH_SIZE);
      var clientKey := p.hmac(salted, CLIENT_KEY);
      var storedKey := p.hash(clientKey);
      var finalNoProof := BINDING + [COMMA] + Attribute(LOWER_R, f.value.r);
      var authMsg := clientFirstBare + [COMMA] + serverFirst + [COMMA] + finalNoProof;
      var clientSig := p.hmac(storedKey, authMsg);
      var proof := XorBytes(clientKey, clientSig);
      var serverKey := p.hmac(salted, SERVER_KEY);
      serverSig := p.hmac(serverKey, authMsg);
      msg := Some(finalNoProof + [COMMA] + Attribute(LOWER_P, p.encode(proof)));
    }

    /** Verify accepts exactly when the first v= or e= attribute is a v= that decodes to the
        signature computed in ClientFinal. */
    method Verify(serverFinal: bytes) returns (ok: bool)
      ensures ok <==> Accepts(p, Split(serverFinal), serverSig)
    {
      var parts := Split(serverFinal);
      for i := 0 to |parts|
        invariant forall k :: 0 <= k < i ==> !HasName(parts[k], LOWER_V) && !HasName(parts[k], LOWER_E)
      {
        var kv := parts[i];
        if HasName(kv, LOWER_V) {
          var got := p.decode(kv[2..]);
          return got.Some? && got.value == serverSig;
        }
        if HasName(kv, LOWER_E) { return false; }
      }
      ok := false;
    }
  }

  predicate Accepts(p: Primitives, parts: seq<bytes>, sig: bytes)
  {
    exists i :: 0 <= i < |parts| && HasName(parts[i], LOWER_V) && p.decode(parts[i][2..]) == Some(sig) &&
                forall k :: 0 <= k < i ==> !HasName(parts[k], LOWER_V) && !HasName(parts[k], LOWER_E)
  }

  lemma IterPositive(s: bytes)
    requires ParseFirst(s).Some?
    ensures ParseFirst(s).value.iter >= 1
  {
  }

  /** The client answers exactly when the server's message parses, its nonce extends the client's and
      its salt decodes. */
  lemma AnswersOnly(p: Primitives, password: bytes, nonce: bytes, serverFirst: bytes)
    requires Sound(p)
    ensures Answer(p, password, nonce, serverFirst).Some? <==>
            && ParseFirst(serverFirst).Some? && nonce <= ParseFirst(serverFirst).value.r
            && p.decode(ParseFirst(serverFirst).value.salt).Some?
  {
    hide ParseFirst, Hi, Xor;
  }

  /** A server-final message that starts with an error is refused, whatever follows. */
  lemma ErrorRefused(p: Primitives, message: bytes, rest: bytes, sig: bytes)
    requires COMMA !in message
    ensures !Accepts(p, Split(Ascii("e=") + message + Ascii(",") + rest), sig)
  {
    Attributes();
    Spelling();
    var first := Attribute(LOWER_E, message);
    hide Ascii;
    assert Ascii("e=") + message + Ascii(",") + rest == first + [COMMA] + rest;
    SplitAt(first, rest);
    hide Split;
    assert HasName(([first] + Split(rest))[0], LOWER_E);
  }

  // ---- A server following section 3 of RFC 5802 ----

  datatype Enrolled = Enrolled(salt: bytes, iter: nat, storedKey: bytes, serverKey: bytes)

  function Enrol(p: Primitives, password: bytes, salt: bytes, iter: nat): Enrolled
    requires Sound(p) && iter >= 1
  {
    var salted := Hi(p, password, salt, iter);
    Enrolled(salt, iter, p.hash(p.hmac(salted, Ascii("Client Key"))), p.hmac(salted, Ascii("Server Key")))
  }

  function ServerFirst(p: Primitives, e: Enrolled, r: bytes): bytes
  {
    Ascii("r=") + r + Ascii(",s=") + p.encode(e.salt) + Ascii(",i=") + Decimal(e.iter)
  }

  datatype Verdict = Refused | Accepted(clientKey: bytes, final: bytes)

  // Recovers ClientKey from the proof, compares its hash with StoredKey, and signs.
  function ServerFinal(p: Primitives, e: Enrolled, clientFirst: bytes, serverFirst: bytes, r: bytes, clientFinal: bytes): Verdict
    requires Sound(p)
  {
    var parts := Split(clientFinal);
    if |parts| != 3 || parts[0] != Ascii("c=biws") || parts[1] != Ascii("r=") + r || |parts[2]| < 2 || parts[2][..2] != Ascii("p=")
       || |clientFirst| < 3 || clientFirst[..3] != Ascii("n,,") then Refused
    else
      var proof := p.decode(parts[2][2..]);
      if proof.None? || |proof.value| != HASH_SIZE then Refused
      else
        var auth := clientFirst[3..] + Ascii(",") + serverFirst + Ascii(",") + (parts[0] + Ascii(",") + parts[1]);
        var clientKey := Xor(proof.value, p.hmac(e.storedKey, auth));
        if p.hash(clientKey) != e.storedKey then Refused
        else Accepted(clientKey, Ascii("v=") + p.encode(p.hmac(e.serverKey, auth)))
  }

  // The client's own constants, spelt out.
  lemma Spelling()
    ensures BARE_PREFIX == Ascii("n=,r=") && GS2_HEADER == Ascii("n,,") && BINDING == Ascii("c=biws") && [COMMA] == Ascii(",")
    ensures CLIENT_KEY == Ascii("Client Key") && SERVER_KEY == Ascii("Server Key")
  {
  }

  lemma Attributes()
    ensures [LOWER_R, EQUALS] == Ascii("r=") && [LOWER_P, EQUALS] == Ascii("p=") && [LOWER_V, EQUALS] == Ascii("v=") && [LOWER_E, EQUALS] == Ascii("e=")
    ensures [COMMA] + [LOWER_S, EQUALS] == Ascii(",s=") && [COMMA] + [LOWER_I, EQUALS] == Ascii(",i=")
  {
  }

  lemma ServerFirstParses(p: Primitives, e: Enrolled, r: bytes)
    requires Sound(p) && COMMA !in r && r != [] && e.salt != [] && 1 <= e.iter < 0x8000_0000_0000_0000
    ensures ParseFirst(ServerFirst(p, e, r)) == Some(First(r, p.encode(e.salt), e.iter))
  {
    var a, b, c := Attribute(LOWER_R, r), Attribute(LOWER_S, p.encode(e.salt)), Attribute(LOWER_I, Decimal(e.iter));
    ServerFirstShape(p, e, r);
    hide Ascii, ServerFirst;
    DigitsHaveNoComma(Decimal(e.iter));
    SplitAt(a, b + [COMMA] + c);
    SplitAt(b, c);
    SplitOne(c);
    var parts: seq<bytes> := [a, b, c];
    assert Split(ServerFirst(p, e, r)) == parts;
    AtoiDecimal(e.iter);
    hide Split, Atoi, Decimal;
    var none: seq<bytes>, one: seq<bytes>, two: seq<bytes> := [], [a], [a, b];
    assert parts[..2] == two && two[..1] == one && one[..0] == none;
    assert a[2..] == r && b[2..] == p.encode(e.salt) && c[2..] == Decimal(e.iter);
    assert Collect(none) == Some(First([], [], 0));
    assert Collect(one) == Some(First(r, [], 0));
    assert Collect(two) == Some(First(r, p.encode(e.salt), 0));
  }

  lemma ServerFirstShape(p: Primitives, e: Enrolled, r: bytes)
    ensures ServerFirst(p, e, r) ==
            Attribute(LOWER_R, r) + [COMMA] + (Attribute(LOWER_S, p.encode(e.salt)) + [COMMA] + Attribute(LOWER_I, Decimal(e.iter)))
  {
    Attributes();
    hide Ascii, Decimal;
  }

  lemma DigitsHaveNoComma(b: bytes)
    requires AllDigits(b)
    ensures COMMA !in b
  {
  }

  lemma FinalParts(r: bytes, proof: bytes)
    requires COMMA !in r && COMMA !in proof
    ensures Split(WithoutProof(r) + [COMMA] + Attribute(LOWER_P, proof)) == [BINDING, Attribute(LOWER_R, r), Attribute(LOWER_P, proof)]
  {
    var b, c := Attribute(LOWER_R, r), Attribute(LOWER_P, proof);
    assert WithoutProof(r) + [COMMA] + c == BINDING + [COMMA] + (b + [COMMA] + c);
    SplitAt(BINDING, b + [COMMA] + c);
    SplitAt(b, c);
    SplitOne(c);
  }

  /** For any password, salt, iteration count and nonce extension, the client answers, the server
      recovers the client key from the proof and accepts, and the client accepts its signature. */
  lemma Agreement(p: Primitives, password: bytes, salt: bytes, iter: nat, nonce: bytes, extension: bytes)
    requires Sound(p) && salt != [] && 1 <= iter < 0x8000_0000_0000_0000
    requires nonce + extension != [] && COMMA !in nonce && COMMA !in extension
    ensures var e := Enrol(p, password, salt, iter);
            var first := ServerFirst(p, e, nonce + extension);
            var reply := Answer(p, password, nonce, first);
            && reply.Some?
            && var verdict := ServerFinal(p, e, GS2_HEADER + BareFirst(nonce), first, nonce + extension, reply.value.final);
               && verdict.Accepted?
               && verdict.clientKey == p.hmac(Hi(p, password, salt, iter), Ascii("Client Key"))
               && Accepts(p, Split(verdict.final), reply.value.serverSig)
  {
    var r := nonce + extension;
    var e := Enrol(p, password, salt, iter);
    var first := ServerFirst(p, e, r);
    ServerFirstParses(p, e, r);
    Spelling();
    Attributes();
    hide ParseFirst, ServerFirst, Hi, Split, Xor, Ascii;
    var salted := Hi(p, password, salt, iter);
    var clientKey := p.hmac(salted, CLIENT_KEY);
    var auth := AuthMessage(nonce, first, r);
    var sig := p.hmac(p.hash(clientKey), auth);
    var proof := Xor(clientKey, sig);
    var reply := Answer(p, password, nonce, first).value;
    FinalParts(r, p.encode(proof));
    assert Attribute(LOWER_R, r) == Ascii("r=") + r && Attribute(LOWER_P, p.encode(proof))[..2] == Ascii("p=");
    assert (GS2_HEADER + BareFirst(nonce))[..3] == GS2_HEADER;
    assert (GS2_HEADER + BareFirst(nonce))[3..] == BareFirst(nonce);
    assert Attribute(LOWER_P, p.encode(proof))[2..] == p.encode(proof);
    XorCancels(clientKey, sig);
    var final := Attribute(LOWER_V, p.encode(reply.serverSig));
    SplitOne(final);
    assert final[2..] == p.encode(reply.serverSig);
    assert HasName([final][0], LOWER_V);
  }
}
