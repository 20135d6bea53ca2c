/** RFC 6238 codes (src/auth/totp.rs): dynamic truncation, six digits, drift of one step. */
module Totp {
  import opened Wrappers
  import opened MachineInts
  import opened Bits
  import opened Division
  import opened Decimal

  const PERIOD_SECS: u64 := 30
  const DIGITS := 6
  const DRIFT_STEPS: i64 := 1

  /** An HMAC-SHA1 tag. */
  type Tag = t: seq<byte> | |t| == 20 witness seq(20, _ => 0)

  /** HMAC-SHA1 of a message under a key, or a key error. */
  type Mac = (seq<byte>, seq<byte>) -> Option<Tag>

  /** `u64::to_be_bytes` */
  function ToBeBytes(n: u64): (r: seq<byte>)
    ensures |r| == 8
  {
    seq(8, i requires 0 <= i < 8 => (n as int / Pow256(7 - i)) % 256)
  }

  function Pow256(k: nat): (p: nat)
    ensures p >= 1
  {
    if k == 0 then 1 else 256 * Pow256(k - 1)
  }

  function BigEndian(bytes: seq<byte>): nat {
    if bytes == [] then 0 else 256 * BigEndian(bytes[..|bytes| - 1]) + bytes[|bytes| - 1]
  }

  /** Dynamic truncation (section 5.3 of RFC 4226): the 31-bit number in four bytes of the tag, from
      the offset its last byte names. */
  function Truncate(tag: Tag): nat {
    var offset := And(tag[19], 0x0f);
    OffsetInRange(tag);
    Or(Or(Or(Shl(And(tag[offset], 0x7f), 24), Shl(tag[offset + 1], 16)), Shl(tag[offset + 2], 8)), tag[offset + 3])
  }

  function CodeAtStep(mac: Mac, seed: seq<byte>, step: u64): Option<string> {
    var tag := mac(seed, ToBeBytes(step));
    if tag.None? then None
    else Some(Padded(Truncate(tag.value) % 1_000_000, DIGITS))
  }

  function CodeAt(mac: Mac, seed: seq<byte>, now: u64): Option<string> {
    CodeAtStep(mac, seed, now / PERIOD_SECS)
  }

  predicate AllDigits(s: string) {
    forall i | 0 <= i < |s| :: IsDigit(s[i])
  }

  /** `looks_like_totp_code` (src/routes/totp.rs): where a second factor is sent. */
  predicate LooksLikeTotpCode(s: string) {
    |s| == 6 && AllDigits(s)
  }

  /** The code belongs to some step at most one away from the current one. */
  ghost predicate Accepts(mac: Mac, seed: seq<byte>, now: u64, code: string) {
    exists s: u64 :: now as int / 30 - 1 <= s as int <= now as int / 30 + 1 && CodeAtStep(mac, seed, s) == Some(code)
  }

  /** Accepts exactly the codes of the neighbouring steps: neither the prefilter nor the clamp of
      step -1 to step 0 changes an answer. */
  method Verify(mac: Mac, seed: seq<byte>, now: u64, code: string) returns (ok: bool)
    ensures ok <==> Accepts(mac, seed, now, code)
  {
    hide CodeAtStep, AllDigits;
    if |code| != DIGITS || !AllDigits(code) {
      CodesHaveShape(mac, seed, code);
      return false;
    }
    var step := (now / PERIOD_SECS) as i64;
    var delta := -DRIFT_STEPS;
    while delta <= DRIFT_STEPS
      invariant -1 <= delta <= 2
      invariant forall s: u64 | step as int - 1 <= s as int < step as int + delta as int ::
          CodeAtStep(mac, seed, s) != Some(code)
    {
      var s := (if step + delta < 0 then 0 else step + delta) as u64;
      var candidate := CodeAtStep(mac, seed, s);
      if candidate.Some? && candidate.value == code {
        return true;
      }
      delta := delta + 1;
    }
    return false;
  }

  lemma CodesHaveShape(mac: Mac, seed: seq<byte>, code: string)
    requires |code| != DIGITS || !AllDigits(code)
    ensures forall s: u64 :: CodeAtStep(mac, seed, s) != Some(code)
  {
    forall s: u64
      ensures CodeAtStep(mac, seed, s) != Some(code)
    {
      var tag := mac(seed, ToBeBytes(s));
      if tag.Some? {
        CodeShape(tag.value);
      }
    }
  }

  // ---------- truncation ----------

  lemma OffsetInRange(tag: Tag)
    ensures And(tag[19], 0x0f) == tag[19] % 16 <= 15
  {
    AndMask(tag[19], 4);
    assert Pow2(4) == 16 by { assert Pow2(2) == 4; }
  }

  /** Four base-256 digits, most significant first. */
  function Quad(a: int, b: int, c: int, d: int): int {
    a * 0x100_0000 + b * 0x1_0000 + c * 0x100 + d
  }

  /** The shift/or/mask expression is the big-endian 31-bit value of four bytes inside the tag. */
  lemma TruncateIsPositional(tag: Tag)
    ensures var o := tag[19] % 16;
            && o + 3 < 20
            && Truncate(tag) == BigEndian(tag[o..o + 4]) % 0x8000_0000
            && Truncate(tag) == Quad(tag[o] % 128, tag[o + 1], tag[o + 2], tag[o + 3])
  {
    OffsetInRange(tag);
    var o := tag[19] % 16;
    var a, b, c, d := tag[o], tag[o + 1], tag[o + 2], tag[o + 3];
    MaskSevenBits(a);
    OrFourBytes(a % 128, b, c, d);
    BigEndianFour(tag[o..o + 4]);
  }

  lemma MaskSevenBits(a: byte)
    ensures And(a, 0x7f) == a % 128
  {
    Powers();
    AndMask(a, 7);
  }

  lemma Powers()
    ensures Pow2(7) == 128 && Pow2(8) == 256 && Pow2(16) == 0x1_0000 && Pow2(24) == 0x100_0000
  {
    assert Pow2(2) == 4 && Pow2(4) == 16 && Pow2(6) == 64;
    assert Pow2(10) == 1024 && Pow2(12) == 4096 && Pow2(14) == 16384;
    assert Pow2(18) == 0x4_0000 && Pow2(20) == 0x10_0000 && Pow2(22) == 0x40_0000;
  }

  lemma {:induction false} ShlShl(a: nat, j: nat, k: nat)
    ensures Shl(Shl(a, j), k) == Shl(a, j + k)
  {
    if k == 0 {
    } else {
      ShlShl(a, j, k - 1);
    }
  }

  lemma {:induction false} ShlAdd(a: nat, b: nat, k: nat)
    ensures Shl(a, k) + Shl(b, k) == Shl(a + b, k)
  {
    if k == 0 {
    } else {
      ShlAdd(a, b, k - 1);
    }
  }

  lemma ShlByteBound(b: byte, k: nat)
    ensures Shl(b, k) < Pow2(k + 8)
  {
    ShlIsProduct(b, k);
    ShlIsProduct(Pow2(8), k);
    Pow2Shl(k, 8);
    Powers();
    MulDiff(256, b, Pow2(k));
    MulAtLeast(256 - b, Pow2(k));
  }

  lemma {:induction false} Pow2Shl(k: nat, j: nat)
    ensures Shl(Pow2(j), k) == Pow2(k + j)
  {
    if k == 0 {
    } else {
      Pow2Shl(k - 1, j);
    }
  }

  /** Or-ing in the next byte appends a base-256 digit. */
  lemma OrNext(high: nat, b: byte, k: nat)
    ensures Or(Shl(high, k + 8), Shl(b, k)) == Shl(256 * high + b, k)
  {
    ShlByteBound(b, k);
    OrDisjoint(high, k + 8, Shl(b, k));
    ShlIsProduct(high, 8);
    Powers();
    ShlShl(high, 8, k);
    ShlAdd(Shl(high, 8), b, k);
    assert 8 + k == k + 8;
  }

  lemma OrFourBytes(a: nat, b: byte, c: byte, d: byte)
    ensures Or(Or(Or(Shl(a, 24), Shl(b, 16)), Shl(c, 8)), d) == Quad(a, b, c, d)
  {
    hide Or, Shl;
    OrNext(a, b, 16);
    OrNext(256 * a + b, c, 8);
    OrNext(256 * (256 * a + b) + c, d, 0);
    ShlNone(d);
    ShlNone(256 * (256 * (256 * a + b) + c) + d);
  }

  lemma ShlNone(a: nat)
    ensures Shl(a, 0) == a
  {
  }

  lemma NoBytes()
    ensures BigEndian([]) == 0
  {
  }

  lemma LastByte(bytes: seq<byte>, k: nat)
    requires 1 <= k <= |bytes|
    ensures BigEndian(bytes[..k]) == 256 * BigEndian(bytes[..k - 1]) + bytes[k - 1] as int
  {
    assert bytes[..k][..k - 1] == bytes[..k - 1];
  }

  lemma BigEndianFour(s: seq<byte>)
    requires |s| == 4
    ensures BigEndian(s) == Quad(s[0], s[1], s[2], s[3])
    ensures BigEndian(s) % 0x8000_0000 == Quad(s[0] % 128, s[1], s[2], s[3])
  {
    hide BigEndian;
    NoBytes();
    LastByte(s, 1);
    LastByte(s, 2);
    LastByte(s, 3);
    LastByte(s, 4);
    assert s[..4] == s && s[..0] == [];
    QuadLow(s[0], s[1], s[2], s[3]);
  }

  /** Dropping the top bit of four bytes. */
  lemma QuadLow(a: byte, b: byte, c: byte, d: byte)
    ensures Quad(a, b, c, d) % 0x8000_0000 == Quad(a % 128, b, c, d)
  {
    var low := Quad(a % 128, b, c, d);
    assert Quad(a, b, c, d) == (a / 128) as int * 0x8000_0000 + low && 0 <= low < 0x8000_0000;
  }

  // ---------- the code ----------

  /** Every tag gives six ASCII digits that read back as its value modulo a million. */
  lemma CodeShape(tag: Tag)
    ensures var code := Padded(Truncate(tag) % 1_000_000, DIGITS);
            |code| == 6 && AllDigits(code) && Value(code, 0) == Truncate(tag) % 1_000_000
  {
    var n := Truncate(tag) % 1_000_000;
    PaddedLength(n, 6);
    PaddedValue(n, 6);
    assert Pow10(2) == 100 && Pow10(4) == 10_000;
  }

  /** Every code the server could show is routed to the TOTP check. */
  lemma CodesLookLikeCodes(mac: Mac, seed: seq<byte>, now: u64)
    requires CodeAt(mac, seed, now).Some?
    ensures LooksLikeTotpCode(CodeAt(mac, seed, now).value)
  {
    CodeShape(mac(seed, ToBeBytes(now / PERIOD_SECS)).value);
  }

  /** A code produced at one time is accepted at every time within 30 seconds of it. */
  lemma AcceptedAround(mac: Mac, seed: seq<byte>, made: u64, used: u64)
    requires CodeAt(mac, seed, made).Some?
    requires made as int - 30 <= used as int <= made as int + 30
    ensures Accepts(mac, seed, used, CodeAt(mac, seed, made).value)
  {
    var s := made / PERIOD_SECS;
    assert CodeAtStep(mac, seed, s) == CodeAt(mac, seed, made);
  }

  /** Every accepted code was the code of some time less than 60 seconds away. (Within 30 seconds of
      the end of the u64 range that time may lie past it; its step does not.) */
  lemma AcceptedIsRecent(mac: Mac, seed: seq<byte>, now: u64, code: string) returns (made: nat)
    requires Accepts(mac, seed, now, code)
    ensures made / 30 < 0x1_0000_0000_0000_0000 && CodeAtStep(mac, seed, (made / 30) as u64) == Some(code)
    ensures made < 0x1_0000_0000_0000_0000 ==> CodeAt(mac, seed, made as u64) == Some(code)
    ensures now as int - 60 < made < now as int + 60
  {
    hide CodeAtStep;
    var s: u64 :| now as int / 30 - 1 <= s as int <= now as int / 30 + 1 && CodeAtStep(mac, seed, s) == Some(code);
    made := if s < now / 30 then s as int * 30 + 29 else s as int * 30;
    assert made / 30 == s as int;
  }

  /** The message encodes the step: different steps are different messages. */
  lemma {:induction false} StepDecodes(step: u64)
    ensures BigEndian(ToBeBytes(step)) == step as int
  {
    PrefixDecodes(step, 8);
    assert ToBeBytes(step)[..8] == ToBeBytes(step);
  }

  lemma {:induction false} PrefixDecodes(step: u64, k: nat)
    requires k <= 8
    ensures BigEndian(ToBeBytes(step)[..k]) == step as int / Pow256(8 - k)
  {
    hide ToBeBytes, Pow256, BigEndian;
    if k == 0 {
      Pow256Eight();
      NoBytes();
    } else {
      var bytes, p := ToBeBytes(step), Pow256(8 - k);
      PrefixDecodes(step, k - 1);
      ByteAt(step, k);
      LastByte(bytes, k);
      DivProduct(step as int, 256, p);
    }
  }

  /** Byte k - 1 of the message is the k-th digit of the step. */
  lemma ByteAt(step: u64, k: nat)
    requires 1 <= k <= 8
    ensures ToBeBytes(step)[k - 1] as int == (step as int / Pow256(8 - k)) % 256
    ensures Pow256(8 - (k - 1)) == 256 * Pow256(8 - k)
  {
  }

  lemma Pow256Eight()
    ensures Pow256(8) == 0x1_0000_0000_0000_0000
  {
    assert Pow256(2) == 0x1_0000 && Pow256(4) == 0x1_0000_0000 && Pow256(6) == 0x1_0000_0000_0000;
  }

  // ---------- the code of a clock value ----------

  /** Byte strings of one length are told apart by their big-endian values. */
  lemma {:induction false} BigEndianInjective(a: seq<byte>, b: seq<byte>)
    requires |a| == |b| && BigEndian(a) == BigEndian(b)
    ensures a == b
  {
    if a == [] {
    } else {
      var n := |a|;
      LastByte(a, n);
      LastByte(b, n);
      assert a[..n] == a && b[..n] == b;
      SameDigits(BigEndian(a[..n - 1]), a[n - 1], BigEndian(b[..n - 1]), b[n - 1]);
      BigEndianInjective(a[..n - 1], b[..n - 1]);
      assert a == a[..n - 1] + [a[n - 1]] && b == b[..n - 1] + [b[n - 1]];
    }
  }

  lemma SameDigits(x: nat, a: byte, y: nat, b: byte)
    requires 256 * x + a as int == 256 * y + b as int
    ensures x == y && a == b
  {
  }

  /** The only message the code of a step can come from: eight bytes whose big-endian value is the step. */
  lemma MessageIsStep(msg: seq<byte>, step: u64)
    requires |msg| == 8 && BigEndian(msg) == step as int
    ensures msg == ToBeBytes(step)
  {
    StepDecodes(step);
    BigEndianInjective(msg, ToBeBytes(step));
  }

  /** Six ASCII digits that read as n. */
  predicate SixDigitsOf(code: string, n: nat) {
    |code| == 6 && (forall i | 0 <= i < 6 :: '0' <= code[i] <= '9') && Value(code, 0) == n
  }

  /** The code of a step, from the message and the tag alone (section 5.3 of RFC 4226): no code exactly
      when the MAC fails, else the six digits of the 31-bit number at the tag's offset, modulo 10^6. */
  lemma StepCodeExact(mac: Mac, seed: seq<byte>, step: u64, msg: seq<byte>)
    requires |msg| == 8 && BigEndian(msg) == step as int
    ensures CodeAtStep(mac, seed, step).None? <==> mac(seed, msg).None?
    ensures mac(seed, msg).Some? ==>
              var tag := mac(seed, msg).value; var o := tag[19] % 16;
              SixDigitsOf(CodeAtStep(mac, seed, step).value, (BigEndian(tag[o..o + 4]) % 0x8000_0000) % 1_000_000)
  {
    MessageIsStep(msg, step);
    var tag := mac(seed, msg);
    if tag.Some? {
      CodeShape(tag.value);
      TruncateIsPositional(tag.value);
    }
  }

  /** The code of a clock value is the code of its 30-second step (section 4.2 of RFC 6238). */
  lemma CodeExact(mac: Mac, seed: seq<byte>, now: u64, msg: seq<byte>)
    requires |msg| == 8 && BigEndian(msg) == now as int / 30
    ensures CodeAt(mac, seed, now).None? <==> mac(seed, msg).None?
    ensures mac(seed, msg).Some? ==>
              var tag := mac(seed, msg).value; var o := tag[19] % 16;
              SixDigitsOf(CodeAt(mac, seed, now).value, (BigEndian(tag[o..o + 4]) % 0x8000_0000) % 1_000_000)
  {
    StepCodeExact(mac, seed, now / 30, msg);
  }
}
