/** 32-bit words, their four little-endian byte limbs, and their two's-complement reading. */
module Words {

  const TWO31 := 0x8000_0000
  const TWO32 := 0x1_0000_0000

  type byte = x: int | 0 <= x < 256
  type word = x: int | 0 <= x < TWO32

  /** Four columns of a trace row; they hold bytes only where a constraint says so. */
  type Limbs = s: seq<int> | |s| == 4 witness [0, 0, 0, 0]

  predicate IsByte(x: int) {
    0 <= x < 256
  }

  predicate AreBytes(x: Limbs) {
    IsByte(x[0]) && IsByte(x[1]) && IsByte(x[2]) && IsByte(x[3])
  }

  /** The number four limbs stand for, byte limbs or not. */
  function Value(x: Limbs): int {
    x[0] + 256 * x[1] + 65536 * x[2] + 16777216 * x[3]
  }

  /** `to_le_bytes` */
  function ToLimbs(v: word): Limbs {
    [v % 256, (v / 256) % 256, (v / 65536) % 256, v / 16777216]
  }

  lemma {:induction false} ToLimbsValue(v: word)
    ensures AreBytes(ToLimbs(v)) && Value(ToLimbs(v)) == v
  {
    var a, b, c := v / 256, v / 65536, v / 16777216;
    assert b == a / 256;
    assert c == b / 256;
  }

  lemma {:induction false} ValueToLimbs(x: Limbs)
    requires AreBytes(x)
    ensures 0 <= Value(x) < TWO32 && ToLimbs(Value(x)) == x
  {
    var v := Value(x);
    assert v / 256 == x[1] + 256 * x[2] + 65536 * x[3];
    assert v / 65536 == x[2] + 256 * x[3];
    assert v / 16777216 == x[3];
  }

  lemma {:induction false} ZeroWord()
    ensures ToLimbs(0) == [0, 0, 0, 0]
  {
  }

  lemma {:induction false} LimbsInjective(v: word, w: word)
    ensures ToLimbs(v) == ToLimbs(w) <==> v == w
  {
    if ToLimbs(v) == ToLimbs(w) {
      ToLimbsValue(v);
      ToLimbsValue(w);
    }
  }

  function Wrap(x: int): word {
    x % TWO32
  }

  /** `as i32` */
  function Signed(v: word): int {
    if v < TWO31 then v else v - TWO32
  }

  function Pow2(n: nat): (r: nat)
    ensures r > 0
  {
    if n == 0 then 1 else 2 * Pow2(n - 1)
  }

  lemma {:induction false} Pow2Sum(a: nat, b: nat)
    ensures Pow2(a + b) == Pow2(a) * Pow2(b)
  {
    if a > 0 {
      Pow2Sum(a - 1, b);
    }
  }
}
