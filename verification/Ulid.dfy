// Event ids that sort by time (agent/src/progress_writer.py): a millisecond timestamp and eighty
// random bits in Crockford's Base32.
module Ulid {
  import opened Wrappers
  import opened TextOrder

  const CROCKFORD := "0123456789ABCDEFGHJKMNPQRSTVWXYZ"
  const TWO_TO_50 := 0x4_0000_0000_0000
  const TWO_TO_80 := 0x1_0000_0000_0000_0000_0000

  function Reversed(s: string): string {
    if s == "" then "" else Reversed(s[1..]) + [s[0]]
  }

  // n digits, the most significant first.
  function Encode(v: nat, n: nat): (s: string)
    ensures |s| == n
  {
    if n == 0 then "" else Encode(v / 32, n - 1) + [CROCKFORD[v % 32]]
  }

  function Ulid(timestamp: nat, random: nat): string {
    Encode(timestamp, 10) + Encode(random, 16)
  }

  // The loop of _generate_ulid: digits are taken from the low end and reversed afterwards.
  method EncodeDigits(v: nat, n: nat) returns (s: string)
    ensures s == Encode(v, n)
  {
    var rest, chars: string := v, "";
    for i := 0 to n
      invariant Encode(rest, n - i) + Reversed(chars) == Encode(v, n)
    {
      ReversedAppend(chars, CROCKFORD[rest % 32]);
      assert Encode(rest, n - i) + Reversed(chars)
          == Encode(rest / 32, n - i - 1) + ([CROCKFORD[rest % 32]] + Reversed(chars));
      chars := chars + [CROCKFORD[rest % 32]];
      rest := rest / 32;
    }
    assert Encode(rest, 0) + Reversed(chars) == Reversed(chars);
    s := Reversed(chars);
  }

  // `random` is eighty random bits.
  method GenerateUlid(timestampMs: nat, random: nat) returns (id: string)
    requires random < TWO_TO_80
    ensures id == Ulid(timestampMs, random) && |id| == 26
  {
    var t := EncodeDigits(timestampMs, 10);
    var r := EncodeDigits(random, 16);
    id := t + r;
  }

  lemma {:induction false} ReversedAppend(s: string, c: char)
    ensures Reversed(s + [c]) == [c] + Reversed(s)
  {
    if s == "" {
      assert s + [c] == [c] && [c][1..] == "";
    } else {
      assert (s + [c])[1..] == s[1..] + [c];
      ReversedAppend(s[1..], c);
    }
  }

  // ---------------------------------------------------------------- decoding

  function Digit(c: char, k: nat): Option<nat>
    requires k <= 32
    decreases 32 - k
  {
    if k == 32 then None else if CROCKFORD[k] == c then Some(k) else Digit(c, k + 1)
  }

  function Decode(s: string): Option<nat> {
    if s == "" then Some(0)
    else match (Decode(s[..|s| - 1]), Digit(s[|s| - 1], 0))
      case (Some(high), Some(low)) => Some(32 * high + low)
      case _ => None
  }

  function Pow32(n: nat): (p: nat)
    ensures p > 0
  {
    if n == 0 then 1 else 32 * Pow32(n - 1)
  }

  lemma {:induction false} CrockfordAscends(i: nat, j: nat)
    requires i < j < 32
    ensures CROCKFORD[i] < CROCKFORD[j]
  {
    if i + 1 < j {
      CrockfordAscends(i, j - 1);
    }
    assert CROCKFORD[j - 1] < CROCKFORD[j];
  }

  lemma {:induction false} DigitFinds(d: nat, k: nat)
    requires k <= d < 32
    ensures Digit(CROCKFORD[d], k) == Some(d)
    decreases d - k
  {
    if k < d {
      CrockfordAscends(k, d);
      DigitFinds(d, k + 1);
    }
  }

  lemma {:induction false} ModSplit(v: nat, p: nat)
    requires p > 0
    ensures v % (32 * p) == 32 * (v / 32 % p) + v % 32
  {
    var q, low := v / 32, v % 32;
    var k, m := q / p, q % p;
    assert v == 32 * q + low && q == k * p + m;
    assert v == k * (32 * p) + (32 * m + low);
    assert 0 <= 32 * m + low < 32 * p;
    DivModUnique(v, 32 * p, k, 32 * m + low);
  }

  lemma {:induction false} DivModUnique(v: nat, d: nat, k: nat, r: nat)
    requires v == k * d + r && r < d
    ensures v % d == r
  {
    OneRemainder(v / d, v % d, k, r, d);
  }

  lemma {:induction false} OneRemainder(q: int, a: nat, k: int, b: nat, d: nat)
    requires q * d + a == k * d + b && a < d && b < d
    ensures a == b
  {
    if q > k {
      AtLeast(q - k, d);
    } else if q < k {
      AtLeast(k - q, d);
    }
  }

  lemma {:induction false} AtLeast(m: int, d: nat)
    requires m >= 1
    ensures m * d >= d
  {
  }

  // Encoding keeps the value modulo the capacity of its digits.
  lemma {:induction false} DecodeEncode(v: nat, n: nat)
    ensures Decode(Encode(v, n)) == Some(v % Pow32(n))
  {
    if n > 0 {
      var s, high := Encode(v, n), Encode(v / 32, n - 1);
      DecodeEncode(v / 32, n - 1);
      DigitFinds(v % 32, 0);
      assert s[..|s| - 1] == high;
      ModSplit(v, Pow32(n - 1));
    }
  }

  // ---------------------------------------------------------------- order

  lemma {:induction false} EncodeWraps(v: nat, n: nat)
    ensures Encode(v, n) == Encode(v % Pow32(n), n)
  {
    if n > 0 {
      var p := Pow32(n - 1);
      var w := v % Pow32(n);
      ModSplit(v, p);
      assert w == 32 * (v / 32 % p) + v % 32;
      assert w / 32 == v / 32 % p && w % 32 == v % 32;
      EncodeWraps(v / 32, n - 1);
    }
  }

  lemma {:induction false} OneCharacter(x: string, y: string)
    requires |x| == |y| == 1 && x[0] < y[0]
    ensures LexLess(x, y)
  {
  }

  lemma {:induction false} EncodeAscends(a: nat, b: nat, n: nat)
    requires a < b < Pow32(n)
    ensures LexLess(Encode(a, n), Encode(b, n))
  {
    hide LexLess;
    var x, y := [CROCKFORD[a % 32]], [CROCKFORD[b % 32]];
    if a / 32 < b / 32 {
      EncodeAscends(a / 32, b / 32, n - 1);
      LexExtend(Encode(a / 32, n - 1), Encode(b / 32, n - 1), x, y);
    } else {
      CrockfordAscends(a % 32, b % 32);
      OneCharacter(x, y);
      LexPrefix(Encode(a / 32, n - 1), x, y);
    }
  }

  lemma {:induction false} Capacities()
    ensures Pow32(10) == TWO_TO_50 && Pow32(16) == TWO_TO_80
  {
    assert Pow32(4) == 0x10_0000;
    assert Pow32(8) == 0x100_0000_0000;
    assert Pow32(12) == 0x1000_0000_0000_0000;
  }

  // Both numbers come back, the timestamp as far as fifty bits reach.
  lemma {:induction false} UlidDecodes(timestamp: nat, random: nat)
    requires random < TWO_TO_80
    ensures var id := Ulid(timestamp, random);
            && Decode(id[..10]) == Some(timestamp % TWO_TO_50) && Decode(id[10..]) == Some(random)
            && (Decode(id[..10]) == Some(timestamp) <==> timestamp < TWO_TO_50)
  {
    hide Encode, Decode, Pow32, TWO_TO_50, TWO_TO_80;
    Capacities();
    DecodeEncode(timestamp, 10);
    DecodeEncode(random, 16);
    Unchanged(timestamp, Pow32(10));
    Unchanged(random, Pow32(16));
    var id := Ulid(timestamp, random);
    assert id[..10] == Encode(timestamp, 10) && id[10..] == Encode(random, 16);
  }

  lemma {:induction false} Unchanged(v: nat, p: nat)
    requires p > 0
    ensures v % p == v <==> v < p
  {
    if v < p {
      DivModUnique(v, p, 0, v);
    }
  }

  predicate Before(t: nat, r: nat, u: nat, s: nat) {
    t < u || (t == u && r < s)
  }

  lemma {:induction false} UlidAscends(t: nat, r: nat, u: nat, s: nat)
    requires t < TWO_TO_50 && u < TWO_TO_50 && r < TWO_TO_80 && s < TWO_TO_80 && Before(t, r, u, s)
    ensures LexLess(Ulid(t, r), Ulid(u, s))
  {
    Capacities();
    if t < u {
      EncodeAscends(t, u, 10);
      LexExtend(Encode(t, 10), Encode(u, 10), Encode(r, 16), Encode(s, 16));
    } else {
      EncodeAscends(r, s, 16);
      LexPrefix(Encode(t, 10), Encode(r, 16), Encode(s, 16));
    }
  }

  // The order of the ids is exactly the order of the timestamps modulo 2^50, then of the random
  // bits.
  lemma {:induction false} UlidOrder(t: nat, r: nat, u: nat, s: nat)
    requires r < TWO_TO_80 && s < TWO_TO_80
    ensures LexLess(Ulid(t, r), Ulid(u, s)) <==> Before(t % TWO_TO_50, r, u % TWO_TO_50, s)
  {
    Capacities();
    var t1, u1 := t % TWO_TO_50, u % TWO_TO_50;
    EncodeWraps(t, 10);
    EncodeWraps(u, 10);
    LexTotal(Ulid(t1, r), Ulid(u1, s));
    if Before(t1, r, u1, s) {
      UlidAscends(t1, r, u1, s);
    } else if Before(u1, s, t1, r) {
      UlidAscends(u1, s, t1, r);
    }
  }

  // Up to the year 37648 ids sort by time.
  lemma {:induction false} UlidSortsByTime(t: nat, r: nat, u: nat, s: nat)
    requires t < TWO_TO_50 && u < TWO_TO_50 && r < TWO_TO_80 && s < TWO_TO_80
    ensures LexLess(Ulid(t, r), Ulid(u, s)) <==> Before(t, r, u, s)
  {
    hide Ulid, LexLess;
    UlidOrder(t, r, u, s);
  }

  // The first millisecond after that sorts before the last one of it.
  lemma {:induction false} UlidWraps(r: nat, s: nat)
    requires r < TWO_TO_80 && s < TWO_TO_80
    ensures LexLess(Ulid(TWO_TO_50, r), Ulid(TWO_TO_50 - 1, s))
  {
    hide Ulid, LexLess;
    UlidOrder(TWO_TO_50, r, TWO_TO_50 - 1, s);
  }
}
