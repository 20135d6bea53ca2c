/** Recovery-code generation (src/auth/recovery_codes.rs): random bytes to an alphabet of 32. */
module RecoveryCodes {
  import opened Wrappers
  import opened MachineInts
  import Totp

  const CODE_COUNT := 10
  const CODE_LEN := 10
  const ALPHABET: string := "0123456789ABCDEFGHJKMNPQRSTVWXYZ"

  function SymbolOf(b: byte): char {
    ALPHABET[b % 32]
  }

  function CodeOf(bytes: seq<byte>): string {
    seq(|bytes|, i requires 0 <= i < |bytes| => SymbolOf(bytes[i]))
  }

  /** One code from the bytes the system's random source filled the buffer with, if it did. */
  method GenerateCode(random: Option<seq<byte>>) returns (code: Option<string>)
    requires random.Some? ==> |random.value| == CODE_LEN
    ensures code == if random.None? then None else Some(CodeOf(random.value))
  {
    if random.None? {
      return None;
    }
    var bytes := random.value;
    var s := "";
    for i := 0 to |bytes|
      invariant s == CodeOf(bytes[..i])
    {
      s := s + [ALPHABET[bytes[i] % |ALPHABET|]];
    }
    assert bytes[..|bytes|] == bytes;
    code := Some(s);
  }

  /** Ten codes, one per read of the random source; the first failed read ends the batch. */
  method GenerateCodes(random: seq<Option<seq<byte>>>) returns (codes: Option<seq<string>>)
    requires |random| == CODE_COUNT && forall i | 0 <= i < CODE_COUNT && random[i].Some? ::
        |random[i].value| == CODE_LEN
    ensures codes.None? <==> exists i :: 0 <= i < CODE_COUNT && random[i].None?
    ensures codes.Some? ==> |codes.value| == CODE_COUNT
    ensures codes.Some? ==>
        forall i | 0 <= i < CODE_COUNT :: random[i].Some? && codes.value[i] == CodeOf(random[i].value)
  {
    var slots := new string[CODE_COUNT](_ => "");
    for i := 0 to CODE_COUNT
      invariant forall j | 0 <= j < i :: random[j].Some? && slots[j] == CodeOf(random[j].value)
    {
      var code := GenerateCode(random[i]);
      if code.None? {
        return None;
      }
      slots[i] := code.value;
    }
    codes := Some(slots[..]);
  }

  // ---------- every code is equally likely ----------

  predicate OverAlphabet(code: string) {
    forall i | 0 <= i < |code| :: code[i] in ALPHABET
  }

  lemma SymbolsDistinct(i: nat, j: nat)
    requires i < 32 && j < 32 && ALPHABET[i] == ALPHABET[j]
    ensures i == j
  {
    Increasing();
    if i < j { AlphabetBelow(i, j); } else if j < i { AlphabetBelow(j, i); }
  }

  /** Where each symbol stands: runs of consecutive characters. */
  function Gap(k: nat): nat {
    if k < 10 then 0 else if k < 18 then 7 else if k < 20 then 8 else if k < 22 then 9 else if k < 27 then 10 else 11
  }

  lemma AlphabetAt(k: nat)
    requires k < 32
    ensures ALPHABET[k] as int == '0' as int + k + Gap(k)
  {
  }

  /** A digit or a capital letter other than I, L, O and U. */
  predicate Readable(c: char) {
    ('0' <= c <= '9' || 'A' <= c <= 'Z') && c != 'I' && c != 'L' && c != 'O' && c != 'U'
  }

  lemma GapsSpell(s: string, c: char)
    requires |s| == 32 && forall k: nat | k < 32 :: s[k] as int == '0' as int + k + Gap(k)
    ensures c in s <==> Readable(c)
  {
    if Readable(c) {
      var n := c as int - '0' as int;
      var k := if n < 10 then n else if n < 25 then n - 7 else if n < 28 then n - 8 else if n < 31 then n - 9
               else if n < 37 then n - 10 else n - 11;
      assert s[k] == c;
    }
  }

  /** Crockford's alphabet: the digits and the capital letters, without I, L, O and U, and no more. */
  lemma AlphabetIs(c: char)
    ensures c in ALPHABET <==> Readable(c)
  {
    forall k: nat | k < 32
      ensures ALPHABET[k] as int == '0' as int + k + Gap(k)
    {
      AlphabetAt(k);
    }
    GapsSpell(ALPHABET, c);
  }

  /** No generated code can be misread: it has no I, L, O or U. */
  lemma GeneratedSymbols(bytes: seq<byte>)
    ensures forall c | c in CodeOf(bytes) :: Readable(c)
  {
    GeneratedShape(bytes);
    forall c | c in CodeOf(bytes)
      ensures Readable(c)
    {
      AlphabetIs(c);
    }
  }

  lemma Increasing()
    ensures |ALPHABET| == 32 && forall i | 0 <= i < 31 :: ALPHABET[i] < ALPHABET[i + 1]
  {
  }

  lemma {:induction false} AlphabetBelow(i: nat, j: nat)
    requires i < j < 32
    ensures ALPHABET[i] < ALPHABET[j]
    decreases j
  {
    Increasing();
    if i == j - 1 {
    } else {
      AlphabetBelow(i, j - 1);
    }
  }

  function SymbolPreimages(c: char): set<byte> {
    set b: byte | 0 <= b < 256 && SymbolOf(b) == c
  }

  function Residues(k: int): set<byte> {
    set b: byte | 0 <= b < 256 && b % 32 == k
  }

  lemma ResidueCases(k: nat, b: byte)
    requires k < 32
    ensures b as int % 32 == k <==>
            b as int == k || b as int == k + 32 || b as int == k + 64 || b as int == k + 96
            || b as int == k + 128 || b as int == k + 160 || b as int == k + 192 || b as int == k + 224
  {
    var q := b as int / 32;
    assert b as int == 32 * q + b as int % 32 && 0 <= q < 8;
  }

  lemma EightResidues(k: nat)
    requires k < 32
    ensures |Residues(k)| == 8
  {
    var eight: set<byte> := {k, k + 32, k + 64, k + 96, k + 128, k + 160, k + 192, k + 224};
    forall b: byte
      ensures b in Residues(k) <==> b in eight
    {
      ResidueCases(k, b);
    }
    assert Residues(k) == eight;
  }

  /** Exactly eight bytes map to each symbol. */
  lemma SymbolEightfold(k: nat)
    requires k < 32
    ensures |SymbolPreimages(ALPHABET[k])| == 8
  {
    EightResidues(k);
    forall b: byte
      ensures b in SymbolPreimages(ALPHABET[k]) <==> b in Residues(k)
    {
      if SymbolOf(b) == ALPHABET[k] {
        SymbolsDistinct(b % 32, k);
      }
    }
    assert SymbolPreimages(ALPHABET[k]) == Residues(k);
  }

  function Pow8(n: nat): nat {
    if n == 0 then 1 else 8 * Pow8(n - 1)
  }

  /** All ways to put one of `heads` in front of one of `tails`. */
  function Cross(heads: set<byte>, tails: set<seq<byte>>): set<seq<byte>> {
    set b, t | b in heads && t in tails :: [b] + t
  }

  lemma CrossMember(heads: set<byte>, tails: set<seq<byte>>, s: seq<byte>)
    ensures s in Cross(heads, tails) <==> |s| > 0 && s[0] in heads && s[1..] in tails
  {
    if |s| > 0 {
      assert s == [s[0]] + s[1..];
    }
    if s in Cross(heads, tails) {
      var b, t :| b in heads && t in tails && s == [b] + t;
      assert s[1..] == t;
    }
  }

  /** Splitting the heads splits the product. */
  lemma CrossSplit(b: byte, rest: set<byte>, tails: set<seq<byte>>)
    requires b !in rest
    ensures Cross(rest + {b}, tails) == Cross(rest, tails) + Cross({b}, tails)
    ensures Cross(rest, tails) !! Cross({b}, tails)
  {
    forall s: seq<byte>
      ensures s in Cross(rest + {b}, tails) <==> s in Cross(rest, tails) || s in Cross({b}, tails)
      ensures !(s in Cross(rest, tails) && s in Cross({b}, tails))
    {
      CrossMember(rest + {b}, tails, s);
      CrossMember(rest, tails, s);
      CrossMember({b}, tails, s);
    }
  }

  lemma CrossNone(tails: set<seq<byte>>)
    ensures Cross({}, tails) == {}
  {
  }

  lemma DisjointCard<T>(a: set<T>, b: set<T>)
    requires a !! b
    ensures |a + b| == |a| + |b|
  {
  }

  lemma MulSuccessor(m: nat, n: nat)
    ensures (m + 1) * n == m * n + n
  {
  }

  lemma {:induction false} CrossCard(heads: set<byte>, tails: set<seq<byte>>)
    ensures |Cross(heads, tails)| == |heads| * |tails|
  {
    hide Cross;
    if heads == {} {
      CrossNone(tails);
    } else {
      var b :| b in heads;
      var rest := heads - {b};
      assert heads == rest + {b} && |heads| == |rest| + 1;
      CrossCard(rest, tails);
      OneHead(b, tails);
      CrossSplit(b, rest, tails);
      DisjointCard(Cross(rest, tails), Cross({b}, tails));
      MulSuccessor(|rest|, |tails|);
    }
  }

  lemma {:induction false} OneHead(b: byte, tails: set<seq<byte>>)
    ensures |Cross({b}, tails)| == |tails|
  {
    if tails == {} {
      assert Cross({b}, tails) == {};
    } else {
      var t :| t in tails;
      var rest := tails - {t};
      OneHead(b, rest);
      CrossMember({b}, rest, [b] + t);
      assert ([b] + t)[1..] == t;
      forall s: seq<byte>
        ensures s in Cross({b}, tails) <==> s in Cross({b}, rest) || s == [b] + t
      {
        CrossMember({b}, tails, s);
        CrossMember({b}, rest, s);
        assert |s| > 0 ==> s == [s[0]] + s[1..];
      }
      assert Cross({b}, tails) == Cross({b}, rest) + {[b] + t};
    }
  }

  /** The byte strings that generate a code. */
  function Preimages(code: string): set<seq<byte>> {
    if code == "" then {[]} else Cross(SymbolPreimages(code[0]), Preimages(code[1..]))
  }

  lemma {:induction false} PreimagesExact(code: string, bytes: seq<byte>)
    ensures bytes in Preimages(code) <==> CodeOf(bytes) == code
  {
    if code == "" {
    } else {
      CrossMember(SymbolPreimages(code[0]), Preimages(code[1..]), bytes);
      if bytes != [] {
        PreimagesExact(code[1..], bytes[1..]);
        assert CodeOf(bytes) == [SymbolOf(bytes[0])] + CodeOf(bytes[1..]);
        assert code == [code[0]] + code[1..];
        assert CodeOf(bytes)[1..] == CodeOf(bytes[1..]);
      }
    }
  }

  /** Generation is unbiased: of the byte strings of any length n, exactly 8^n generate each code
      of n symbols of the alphabet. */
  lemma {:induction false} GenerationUnbiased(code: string)
    requires OverAlphabet(code)
    ensures forall bytes: seq<byte> :: bytes in Preimages(code) <==> CodeOf(bytes) == code
    ensures |Preimages(code)| == Pow8(|code|)
  {
    hide Cross, SymbolPreimages, CodeOf;
    forall bytes: seq<byte>
      ensures bytes in Preimages(code) <==> CodeOf(bytes) == code
    {
      PreimagesExact(code, bytes);
    }
    if code == "" {
    } else {
      assert code[0] in ALPHABET;
      var k :| 0 <= k < 32 && ALPHABET[k] == code[0];
      SymbolEightfold(k);
      assert OverAlphabet(code[1..]);
      GenerationUnbiased(code[1..]);
      CrossCard(SymbolPreimages(code[0]), Preimages(code[1..]));
    }
  }

  // ---------- dispatch ----------

  /** A generated code has ten symbols of the alphabet and is never sent to the TOTP check. */
  lemma GeneratedShape(bytes: seq<byte>)
    ensures OverAlphabet(CodeOf(bytes)) && |CodeOf(bytes)| == |bytes|
    ensures |bytes| == CODE_LEN ==> !Totp.LooksLikeTotpCode(CodeOf(bytes))
  {
    forall i | 0 <= i < |bytes|
      ensures CodeOf(bytes)[i] in ALPHABET
    {
      assert CodeOf(bytes)[i] == ALPHABET[bytes[i] % 32];
    }
  }
}
