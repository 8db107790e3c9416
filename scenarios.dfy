/**
 * Concrete inputs: the literal forms the reader accepts, the range limits
 * of prefix and suffix, and small tables read and rejected.
 */
module Scenarios {
  import opened Wrappers
  import opened Literals
  import opened Keys
  import opened Reader
  import opened ReaderFacts
  import opened Ordering
  import opened Emitter

  /** The largest prefix or suffix, written in hexadecimal, is accepted. */
  lemma LargestLiteral()
    ensures ParseInt("0xffff") == Some(0xffff)
  {
    var s := "0xffff";
    assert s[2..] == "ffff";
    assert "ffff"[..3] == "fff" && "fff"[..2] == "ff" && "ff"[..1] == "f" && "f"[..0] == "";
    assert DigitsValue("ffff", 16) == 0xffff;
  }

  /** One more than the largest prefix or suffix. */
  lemma FirstTooLargeLiteral()
    ensures ParseInt("0x10000") == Some(0x1_0000)
  {
    var s := "0x10000";
    assert s[2..] == "10000";
    assert "10000"[..4] == "1000" && "1000"[..3] == "100" && "100"[..2] == "10" && "10"[..1] == "1" && "1"[..0] == "";
    assert DigitsValue("10000", 16) == 0x1_0000;
  }

  /** A negative literal converts; a decimal with a leading zero and a bare `0x` do not. */
  lemma OtherLiterals()
    ensures ParseInt("-1") == Some(-1)
    ensures ParseInt("012") == None
    ensures ParseInt("0x") == None
  {
    assert !AllZeros("012") by {
      assert "012"[1] != '0';
    }
    assert "0x"[2..] == "";
  }

  /** The checks on a single record at the limits of the two ranges. */
  lemma RangeLimits()
    ensures ReadKey(["i", "N", "0xffff", "0xffff", "u64c"], 0) == Ok(("N", Record("i", "N", 0xffff, 0xffff, "u64c"), 5))
    ensures ReadKey(["i", "N", "0x10000", "0", "u64c"], 0) == Err(PrefixOutOfRange(0x1_0000))
    ensures ReadKey(["c", "N", "0", "0x10000", "vector"], 0) == Err(SuffixOutOfRange(0x1_0000))
    ensures ReadKey(["i", "N", "-1", "0", "u64c"], 0) == Err(PrefixOutOfRange(-1))
  {
    LargestLiteral();
    FirstTooLargeLiteral();
    OtherLiterals();
  }

  /** An unknown key type is reported before an unknown value type, which is reported before a bad range. */
  lemma CheckOrder()
    ensures ReadKey(["x", "N", "-1", "0", "int"], 0) == Err(UnknownKeyType)
    ensures ReadKey(["i", "N", "-1", "0", "int"], 0) == Err(UnknownValueType("int"))
    ensures ReadKey(["x", "N", "012", "0", "int"], 0) == Err(BadLiteral("012"))
    ensures ReadKey(["i", "N", "zz", "0", "u64c"], 0) == Err(BadLiteral("zz"))
    ensures ReadKey(["i", "N", "0", "zz"], 0) == Err(BadLiteral("zz"))
    ensures ReadKey(["i", "N", "0", "0"], 0) == Err(EndOfTokens)
  {
    OtherLiterals();
  }

  const Rec1 := Record("i", "NAME1", 1, 2, "u64c")
  const Rec2 := Record("c", "NAME2", 0, 0, "vector")

  const TwoTokens := ["KEY", "i", "NAME1", "0x01", "0x02", "u64c", "KEY", "c", "NAME2", "0", "0", "vector"]
  const TwoTable := map["NAME1" := Rec1, "NAME2" := Rec2]

  /** Two definitions read into a table holding both. */
  lemma TwoRecords()
    ensures Parse(TwoTokens) == Ok(TwoTable)
  {
    var tokens := TwoTokens;
    assert ReadKey(tokens, 1) == Ok(("NAME1", Rec1, 6)) by {
      assert ParseInt("0x01") == Some(1) by {
        assert "0x01"[2..] == "01" && "01"[..1] == "0" && "0"[..0] == "";
      }
      assert ParseInt("0x02") == Some(2) by {
        assert "0x02"[2..] == "02" && "02"[..1] == "0" && "0"[..0] == "";
      }
    }
    assert ReadKey(tokens, 7) == Ok(("NAME2", Rec2, 12));
    var m1 := map["NAME1" := Rec1];
    ReadRecordStep(tokens, 0, map[], Rec1, 6);
    ReadRecordStep(tokens, 6, m1, Rec2, 12);
  }

  lemma NamesOrdered()
    ensures Less("NAME1", "NAME2")
  {
    assert "NAME1"[1..] == "AME1" && "AME1"[1..] == "ME1" && "ME1"[1..] == "E1" && "E1"[1..] == "1";
    assert "NAME2"[1..] == "AME2" && "AME2"[1..] == "ME2" && "ME2"[1..] == "E2" && "E2"[1..] == "2";
  }

  /** The per-key blocks of that table list `NAME1` before `NAME2`. */
  lemma TwoRecordsKeyOrder()
    ensures KeyOrder(TwoTable) == ["NAME1", "NAME2"]
  {
    var ks := ["NAME1", "NAME2"];
    NamesOrdered();
    assert StrictlySorted(ks);
    assert forall k :: k in ks <==> k in TwoTable.Keys;
    SortedSetUnique(TwoTable.Keys, ks);
  }

  /** The value type enumeration of that table lists both value types, sorted. */
  lemma TwoRecordsValueTypes()
    ensures ValueTypeOrder(TwoTable) == ["u64c", "vector"]
  {
    var vs := ["u64c", "vector"];
    assert ValueTypeSet(TwoTable) == {"u64c", "vector"} by {
      assert TwoTable["NAME1"].valtype == "u64c" && TwoTable["NAME2"].valtype == "vector";
    }
    assert StrictlySorted(vs) by {
      assert Less("u64c", "vector");
    }
    SortedSetUnique(ValueTypeSet(TwoTable), vs);
  }

  /** A record outside the ranges aborts the whole parse; no partial table is returned. */
  lemma RangeErrorAbortsParse()
    ensures Parse(["KEY", "i", "N", "0x10000", "0", "u64c"]) == Err(PrefixOutOfRange(0x1_0000))
  {
    FirstTooLargeLiteral();
  }

  /** A bad literal in a second definition fails the parse; the first definition is not returned. */
  lemma BadLiteralAbortsParse()
    ensures Parse(["KEY", "i", "N", "0", "0", "u64c", "KEY", "c", "M", "zz", "0", "u64c"]) == Err(BadLiteral("zz"))
  {
    var tokens := ["KEY", "i", "N", "0", "0", "u64c", "KEY", "c", "M", "zz", "0", "u64c"];
    var x := Record("i", "N", 0, 0, "u64c");
    assert ReadKey(tokens, 1) == Ok(("N", x, 6));
    assert ReadKey(tokens, 7) == Err(BadLiteral("zz"));
    ReadRecordStep(tokens, 0, map[], x, 6);
  }

  /** The two definitions of `NAME1` below are each read successfully on their own. */
  lemma DuplicateNameFields()
    ensures ReadKey(["KEY", "i", "NAME1", "1", "2", "u64c", "KEY", "c", "NAME1", "0", "0", "vector"], 1)
      == Ok(("NAME1", Record("i", "NAME1", 1, 2, "u64c"), 6))
    ensures ReadKey(["KEY", "i", "NAME1", "1", "2", "u64c", "KEY", "c", "NAME1", "0", "0", "vector"], 7)
      == Ok(("NAME1", Record("c", "NAME1", 0, 0, "vector"), 12))
  {
  }

  /** A second definition of a name stops the parse, whatever it defines. */
  lemma DuplicateName()
    ensures Parse(["KEY", "i", "NAME1", "1", "2", "u64c", "KEY", "c", "NAME1", "0", "0", "vector"])
      == Err(DuplicateKey("NAME1"))
  {
    var tokens := ["KEY", "i", "NAME1", "1", "2", "u64c", "KEY", "c", "NAME1", "0", "0", "vector"];
    var x := Record("i", "NAME1", 1, 2, "u64c");
    var y := Record("c", "NAME1", 0, 0, "vector");
    DuplicateNameFields();
    ReadRecordStep(tokens, 0, map[], x, 6);
    ReadRecordStep(tokens, 6, map["NAME1" := x], y, 12);
  }

  /** Input ending inside a definition fails instead of returning what was read so far. */
  lemma EndsInsideRecord()
    ensures Parse(["KEY", "i", "NAME1"]) == Err(EndOfTokens)
    ensures Parse([]) == Ok(map[])
  {
  }

  /** A command other than `KEY` after a definition stops the parse with that token. */
  lemma UnknownCommandAfterRecord()
    ensures Parse(["KEY", "i", "NAME1", "1", "2", "u64c", "key"]) == Err(UnknownCommand("key"))
  {
    var tokens := ["KEY", "i", "NAME1", "1", "2", "u64c", "key"];
    ReadRecordStep(tokens, 0, map[], Rec1, 6);
  }

  /** Zero written in `w` hexadecimal digits is `w` zeros. */
  lemma {:induction false} ZeroDigits(w: nat)
    ensures HexDigits(0, w) == seq(w, _ => '0')
  {
    if w > 0 {
      ZeroDigits(w - 1);
      assert seq(w - 1, _ => '0') + ['0'] == seq(w, _ => '0');
    }
  }

  /** The enum constants of that table: `NAME1 = 0x0000000000010002`, `NAME2 = 0x0000000000000000`. */
  lemma TwoRecordsConstants()
    ensures ConstantHex(Rec1) == "0000000000010002"
    ensures ConstantHex(Rec2) == "0000000000000000"
  {
    ZeroDigits(11);
    assert seq(11, _ => '0') == "00000000000";
    CombinedValue(1, 2);
    assert HexDigits(1, 12) == "000000000001";
    assert HexDigits(16, 13) == "0000000000010";
    assert HexDigits(256, 14) == "00000000000100";
    assert HexDigits(4096, 15) == "000000000001000";
    assert HexDigits(0x1_0002, 16) == "0000000000010002";
    CombinedValue(0, 0);
    ZeroDigits(16);
    assert seq(16, _ => '0') == "0000000000000000";
  }
}
