/**
 * The key records of the extended version message (`xversion`) key table,
 * the closed sets of key types and value types, and a key's numeric
 * identity `(prefix << 16) | suffix` on Python's unbounded integers.
 */
module Keys {

  /** The tags of `keyTypes`, in the dictionary's insertion order. */
  const KeyTypeTags: seq<string> := ["i", "c"]

  /** `keyTypes[tag]`: the C++ enumerator a key type tag is written as. */
  function KeyTypeName(tag: string): string
    requires tag in KeyTypeTags
  {
    if tag == "i" then "initial" else "changeable"
  }

  /** `valueTypes`. */
  const ValueTypes: seq<string> := ["u64c", "vector"]

  /** One `KEY` definition as `readKEY` returns it. */
  datatype Record = Record(keytype: string, name: string, prefix: int, suffix: int, valtype: string)

  /** A record that passed every check of `readKEY`. */
  predicate ValidRecord(x: Record)
  {
    && x.keytype in KeyTypeTags
    && x.valtype in ValueTypes
    && 0 <= x.prefix <= 0xffff
    && 0 <= x.suffix <= 0xffff
  }

  /** The dictionary `readTable` builds, from key name to record. */
  type Table = map<string, Record>

  /** What a table built by `readTable` satisfies: each entry is filed under its own name and is valid. */
  predicate ValidTable(t: Table)
  {
    forall k :: k in t ==> t[k].name == k && ValidRecord(t[k])
  }

  function Pow2(n: nat): (p: nat)
    ensures p >= 1
  {
    if n == 0 then 1 else 2 * Pow2(n - 1)
  }

  lemma {:induction false} Pow2Add(a: nat, b: nat)
    ensures Pow2(a + b) == Pow2(a) * Pow2(b)
  {
    if a > 0 {
      Pow2Add(a - 1, b);
    }
  }

  lemma Pow2Sixteen()
    ensures Pow2(16) == 0x1_0000
  {
    assert Pow2(2) == 4;
    Pow2Add(2, 2);
    Pow2Add(4, 4);
    Pow2Add(8, 8);
  }

  /** Python's `a << n` for `a >= 0`. */
  function ShiftLeft(a: nat, n: nat): nat
  {
    a * Pow2(n)
  }

  /** Python's `a | b` for `a, b >= 0`, bit by bit from the least significant end. */
  function BitOr(a: nat, b: nat): nat
    decreases a + b
  {
    if a == 0 then b
    else if b == 0 then a
    else 2 * BitOr(a / 2, b / 2) + (if a % 2 == 1 || b % 2 == 1 then 1 else 0)
  }

  /** `(prefix << 16) | suffix`, the value of a key's enum constant. */
  function Combined(prefix: nat, suffix: nat): nat
  {
    BitOr(ShiftLeft(prefix, 16), suffix)
  }

  /** Or-ing a value below `2^k` into a number shifted left by `k` bits adds it. */
  lemma {:induction false} BitOrShifted(a: nat, k: nat, s: nat)
    requires s < Pow2(k)
    ensures BitOr(a * Pow2(k), s) == a * Pow2(k) + s
  {
    if k > 0 && a > 0 && s > 0 {
      var h := a * Pow2(k - 1);
      assert a * Pow2(k) == 2 * h;
      assert (2 * h) / 2 == h && (2 * h) % 2 == 0;
      BitOrShifted(a, k - 1, s / 2);
    }
  }

  /** For 16-bit fields the combined value is `prefix * 65536 + suffix` and fits in 32 bits. */
  lemma CombinedValue(prefix: nat, suffix: nat)
    requires prefix <= 0xffff && suffix <= 0xffff
    ensures Combined(prefix, suffix) == prefix * 0x1_0000 + suffix
    ensures Combined(prefix, suffix) < 0x1_0000_0000
  {
    Pow2Sixteen();
    BitOrShifted(prefix, 16, suffix);
  }

  /** Different 16-bit field pairs give different combined values. */
  lemma CombinedInjective(p1: nat, s1: nat, p2: nat, s2: nat)
    requires p1 <= 0xffff && s1 <= 0xffff && p2 <= 0xffff && s2 <= 0xffff
    requires Combined(p1, s1) == Combined(p2, s2)
    ensures p1 == p2 && s1 == s2
  {
    CombinedValue(p1, s1);
    CombinedValue(p2, s2);
  }
}
