/**
 * The header emitter `writeTableCPPH`: the six declaration blocks it prints
 * for a finished table, each block a sequence of the strings passed to
 * `print`. The literal preamble and trailer are not modelled.
 */
module Emitter {
  import opened Keys
  import opened Literals
  import opened Ordering

  /** `"%*s" % (w, s)`: `s` right-justified in a field of at least `w` characters. */
  function PadLeft(s: string, w: nat): (r: string)
    ensures |r| == if |s| < w then w else |s|
    ensures r[|r| - |s|..] == s
    ensures forall i :: 0 <= i < |r| - |s| ==> r[i] == ' '
    decreases w
  {
    if |s| >= w then s else [' '] + PadLeft(s, w - 1)
  }

  /** `sorted(table.keys())`: every key exactly once, in ascending order. */
  function KeyOrder(t: Table): (r: seq<string>)
    ensures StrictlySorted(r)
    ensures forall k :: k in r <==> k in t
    ensures |r| == |t|
  {
    SortedSet(t.Keys)
  }

  /** The four blocks that print one line per key. */
  datatype KeyBlock = Constants | Names | ValueTypeOf | KeyTypeOf

  /** `"%016x" % v` for the 64-bit value of a key's enum constant. */
  function ConstantHex(x: Record): string
    requires ValidRecord(x)
  {
    HexDigits(Combined(x.prefix, x.suffix), 16)
  }

  /** The line that block `b` prints for record `x`. */
  function KeyLine(b: KeyBlock, x: Record): string
    requires ValidRecord(x)
  {
    match b
    case Constants => "      " + PadLeft(x.name, 40) + " = 0x" + ConstantHex(x) + "UL,"
    case Names => "    {" + PadLeft(x.name, 40) + ", " + PadLeft("\"" + x.name + "\"", 42) + " },"
    case ValueTypeOf => "    {" + PadLeft(x.name, 40) + ", " + PadLeft("xvt_" + x.valtype, 42) + " },"
    case KeyTypeOf => "    {" + PadLeft(x.name, 40) + ", " + PadLeft(KeyTypeName(x.keytype), 42) + " },"
  }

  /** The lines of block `b` for the keys `ks`, in that order. */
  function KeyLines(t: Table, ks: seq<string>, b: KeyBlock): (r: seq<string>)
    requires ValidTable(t)
    requires forall i :: 0 <= i < |ks| ==> ks[i] in t
    ensures |r| == |ks|
    ensures forall i :: 0 <= i < |ks| ==> r[i] == KeyLine(b, t[ks[i]])
  {
    if ks == [] then [] else [KeyLine(b, t[ks[0]])] + KeyLines(t, ks[1..], b)
  }

  function Opening(b: KeyBlock): string
  {
    match b
    case Constants => "enum {"
    case Names => "const std::unordered_map<uint64_t, std::string> name = {"
    case ValueTypeOf => "const std::unordered_map<uint64_t, int> valtype = {"
    case KeyTypeOf => "const std::unordered_map<uint64_t, keyType> mapKeyType = {"
  }

  function Closing(b: KeyBlock): string
  {
    match b
    case Constants => "}; // enum keys\n\n\n"
    case Names => "}; // const unordered_map name\n\n\n"
    case ValueTypeOf => "}; // const unordered_map valtype\n\n\n"
    case KeyTypeOf => "}; // const unordered_map keytype\n\n\n"
  }

  /** A per-key block: its opening line, one line per key in sorted order, its closing line. */
  function KeyBlockLines(t: Table, b: KeyBlock): seq<string>
    requires ValidTable(t)
  {
    [Opening(b)] + KeyLines(t, KeyOrder(t), b) + [Closing(b)]
  }

  /** `set(x["valtype"] for x in table.values())`. */
  function ValueTypeSet(t: Table): set<string>
  {
    set k | k in t :: t[k].valtype
  }

  /** `sorted(valtypes)`. */
  function ValueTypeOrder(t: Table): seq<string>
  {
    SortedSet(ValueTypeSet(t))
  }

  function ValueTypeLine(v: string): string
  {
    "    " + PadLeft("xvt_" + v, 20) + ","
  }

  function ValueTypeLines(vs: seq<string>): (r: seq<string>)
    ensures |r| == |vs|
    ensures forall i :: 0 <= i < |vs| ==> r[i] == ValueTypeLine(vs[i])
  {
    if vs == [] then [] else [ValueTypeLine(vs[0])] + ValueTypeLines(vs[1..])
  }

  /** The value type enumeration: each distinct value type of the table, sorted, prefixed `xvt_`. */
  function ValueTypeEnum(t: Table): seq<string>
  {
    ["enum {"] + ValueTypeLines(ValueTypeOrder(t)) + ["}; // enum valtypes\n\n\n"]
  }

  function KeyTypeEnumLines(tags: seq<string>): (r: seq<string>)
    requires forall i :: 0 <= i < |tags| ==> tags[i] in KeyTypeTags
    ensures |r| == |tags|
    ensures forall i :: 0 <= i < |tags| ==> r[i] == "    " + KeyTypeName(tags[i]) + ","
  {
    if tags == [] then [] else ["    " + KeyTypeName(tags[0]) + ","] + KeyTypeEnumLines(tags[1..])
  }

  /** The key type enumeration: the symbols of `keyTypes` in its iteration order. */
  function KeyTypeEnum(): seq<string>
  {
    ["enum keyType {"] + KeyTypeEnumLines(KeyTypeTags) + ["}; // enum keyType\n\n\n"]
  }

  /** The six blocks `writeTableCPPH` prints between its preamble and trailer, in print order. */
  function Header(t: Table): seq<string>
    requires ValidTable(t)
  {
    KeyBlockLines(t, Constants)
    + KeyBlockLines(t, Names)
    + ValueTypeEnum(t)
    + KeyBlockLines(t, ValueTypeOf)
    + KeyTypeEnum()
    + KeyBlockLines(t, KeyTypeOf)
  }
}

module EmitterFacts {
  import opened Wrappers
  import opened Keys
  import opened Literals
  import opened Ordering
  import opened Emitter

  /** Listing the keys in any ascending order gives the same lines: the block depends on the table alone. */
  lemma {:induction false} PerKeyBlockAnySort(t: Table, b: KeyBlock, ks: seq<string>)
    requires ValidTable(t)
    requires StrictlySorted(ks) && forall k :: k in ks <==> k in t
    ensures KeyBlockLines(t, b) == [Opening(b)] + KeyLines(t, ks, b) + [Closing(b)]
  {
    SortedSetUnique(t.Keys, ks);
  }

  /** The sixteen hexadecimal digits of a key's constant read back as `prefix * 65536 + suffix`. */
  lemma ConstantHexValue(x: Record)
    requires ValidRecord(x)
    ensures |ConstantHex(x)| == 16
    ensures ParseInt("0x" + ConstantHex(x)) == Some(x.prefix * 0x1_0000 + x.suffix)
  {
    CombinedValue(x.prefix, x.suffix);
    SixteenHexDigits();
    HexLiteralRoundTrip(Combined(x.prefix, x.suffix), 16);
  }

  /** Two records get the same constant exactly when their prefixes and suffixes agree. */
  lemma ConstantHexInjective(x: Record, y: Record)
    requires ValidRecord(x) && ValidRecord(y)
    ensures ConstantHex(x) == ConstantHex(y) <==> x.prefix == y.prefix && x.suffix == y.suffix
  {
    ConstantHexValue(x);
    ConstantHexValue(y);
    if ConstantHex(x) == ConstantHex(y) {
      CombinedValue(x.prefix, x.suffix);
      CombinedValue(y.prefix, y.suffix);
      CombinedInjective(x.prefix, x.suffix, y.prefix, y.suffix);
    }
  }

  /**
   * The value type enumeration lists each value type used in the table
   * exactly once, sorted, prefixed `xvt_`; there are at most two.
   */
  lemma ValueTypeBlock(t: Table)
    requires ValidTable(t)
    ensures StrictlySorted(ValueTypeOrder(t))
    ensures forall v :: v in ValueTypeOrder(t) <==> exists k :: k in t && t[k].valtype == v
    ensures forall v :: v in ValueTypeOrder(t) ==> v in ValueTypes
    ensures |ValueTypeOrder(t)| <= 2
  {
    var s := ValueTypeSet(t);
    assert s <= {"u64c", "vector"} by {
      forall v | v in s
        ensures v in {"u64c", "vector"}
      {
        var k :| k in t && t[k].valtype == v;
      }
    }
    assert |{"u64c", "vector"}| <= 2;
    SubsetCardinality(s, {"u64c", "vector"});
  }

  lemma SubsetCardinality(a: set<string>, b: set<string>)
    requires a <= b
    ensures |a| <= |b|
  {
    assert b == a + (b - a);
  }

  /** The key type enumeration is `initial` then `changeable`, whatever the table holds. */
  lemma KeyTypeBlockFixed()
    ensures KeyTypeEnum() == ["enum keyType {", "    initial,", "    changeable,", "}; // enum keyType\n\n\n"]
  {
    var c := ["c"];
    assert c[1..] == [];
    var l2 := "    " + KeyTypeName("c") + ",";
    assert l2 == "    changeable,";
    assert KeyTypeEnumLines(c) == [l2] + KeyTypeEnumLines(c[1..]) == [l2];
    assert KeyTypeTags[1..] == c;
    var l1 := "    " + KeyTypeName("i") + ",";
    assert l1 == "    initial,";
    assert KeyTypeEnumLines(KeyTypeTags) == [l1] + KeyTypeEnumLines(c) == [l1, l2];
  }

  /**
   * The header has four lines per key (one in each per-key block), one per
   * distinct value type, and fourteen opening, closing and key type lines.
   */
  lemma HeaderLength(t: Table)
    requires ValidTable(t)
    ensures |Header(t)| == 4 * |t| + |ValueTypeOrder(t)| + 14
  {
  }
}
