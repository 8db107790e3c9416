/**
 * The script's main line, `writeTableCPPH(stdout, readTable(stdin))`, over
 * an already tokenized input, and what it does with inputs written out
 * record by record.
 */
module Pipeline {
  import opened Wrappers
  import opened Literals
  import opened Keys
  import opened Reader
  import opened ReaderFacts
  import opened Emitter

  /** The header generated from the tokens, or the error that aborted the parse (no output then). */
  function Generate(tokens: seq<string>): (r: Result<seq<string>, Error>)
    ensures r.Ok? <==> Parse(tokens).Ok?
    ensures r.Err? ==> r.error == Parse(tokens).error
  {
    match Parse(tokens)
    case Err(e) => Err(e)
    case Ok(t) => Ok(Header(t))
  }

  /** A record written as one `KEY` definition, with hexadecimal prefix and suffix. */
  function EncodeRecord(x: Record): (r: seq<string>)
    requires ValidRecord(x)
    ensures |r| == 6
    ensures r[0] == KeyCommand && r[1] == x.keytype && r[2] == x.name && r[5] == x.valtype
  {
    [KeyCommand, x.keytype, x.name, "0x" + HexDigits(x.prefix, 4), "0x" + HexDigits(x.suffix, 4), x.valtype]
  }

  /** A record's definition is `KEY`, then its fields, its prefix and suffix as literals that read back. */
  lemma EncodeRecordFields(x: Record)
    requires ValidRecord(x)
    ensures var r := EncodeRecord(x);
      && r[0] == KeyCommand && r[1] == x.keytype && r[2] == x.name && r[5] == x.valtype
      && ParseInt(r[3]) == Some(x.prefix) && ParseInt(r[4]) == Some(x.suffix)
  {
    HexLiteralFour(x.prefix);
    HexLiteralFour(x.suffix);
  }

  /** A 16-bit field written as four hexadecimal digits after `0x` reads back. */
  lemma HexLiteralFour(v: nat)
    requires v <= 0xffff
    ensures ParseInt("0x" + HexDigits(v, 4)) == Some(v)
  {
    assert Pow(16, 4) == 0x1_0000 by {
      assert Pow(16, 2) == 0x100;
      PowAdd(16, 2, 2);
    }
    HexLiteralRoundTrip(v, 4);
  }

  predicate AllValid(recs: seq<Record>)
  {
    forall i :: 0 <= i < |recs| ==> ValidRecord(recs[i])
  }

  /** The definitions of `recs`, one after the other. */
  function Encode(recs: seq<Record>): (r: seq<string>)
    requires AllValid(recs)
    ensures |r| == 6 * |recs|
  {
    if recs == [] then [] else EncodeRecord(recs[0]) + Encode(recs[1..])
  }

  predicate DistinctNames(recs: seq<Record>)
  {
    forall i, j :: 0 <= i < j < |recs| ==> recs[i].name != recs[j].name
  }

  /** The table that holds the records of `recs` under their names. */
  function TableOf(recs: seq<Record>): Table
  {
    if recs == [] then map[] else TableOf(recs[1..])[recs[0].name := recs[0]]
  }

  /** With distinct names, `TableOf` files each record under its name and holds nothing else. */
  lemma {:induction false} TableOfContents(recs: seq<Record>)
    requires DistinctNames(recs)
    ensures forall n :: n in TableOf(recs) <==> exists i :: 0 <= i < |recs| && recs[i].name == n
    ensures forall i :: 0 <= i < |recs| ==> recs[i].name in TableOf(recs) && TableOf(recs)[recs[i].name] == recs[i]
  {
    if recs != [] {
      var tail := recs[1..];
      TableOfContents(tail);
      forall n | n in TableOf(recs)
        ensures exists i :: 0 <= i < |recs| && recs[i].name == n
      {
        if n != recs[0].name {
          var i :| 0 <= i < |tail| && tail[i].name == n;
          assert recs[i + 1].name == n;
        }
      }
      forall i | 0 < i < |recs|
        ensures recs[i].name in TableOf(recs) && TableOf(recs)[recs[i].name] == recs[i]
      {
        assert recs[i] == tail[i - 1];
      }
    }
  }

  /** The six tokens from `6 * i` on are the definition of record `i`. */
  lemma {:induction false} EncodeAt(recs: seq<Record>, i: nat)
    requires AllValid(recs) && i < |recs|
    ensures var tokens, x := Encode(recs), recs[i];
      && tokens[6 * i] == KeyCommand
      && tokens[6 * i + 1] == x.keytype && tokens[6 * i + 2] == x.name
      && tokens[6 * i + 3] == "0x" + HexDigits(x.prefix, 4)
      && tokens[6 * i + 4] == "0x" + HexDigits(x.suffix, 4)
      && tokens[6 * i + 5] == x.valtype
  {
    if i > 0 {
      EncodeAt(recs[1..], i - 1);
      assert recs[1..][i - 1] == recs[i];
    }
  }

  /** Five fields that spell out a valid record are read back as that record. */
  lemma ReadKeyOfFields(tokens: seq<string>, p: nat, x: Record)
    requires ValidRecord(x) && p + 5 <= |tokens|
    requires tokens[p] == x.keytype && tokens[p + 1] == x.name && tokens[p + 4] == x.valtype
    requires ParseInt(tokens[p + 2]) == Some(x.prefix) && ParseInt(tokens[p + 3]) == Some(x.suffix)
    ensures ReadKey(tokens, p) == Ok((x.name, x, p + 5))
  {
    assert ReadKey(tokens, p).Ok?;
  }

  /** `readKEY` looks at no token after the five it reads. */
  lemma ReadKeyPrefix(a: seq<string>, b: seq<string>, p: nat)
    requires p + 5 <= |a|
    ensures ReadKey(a + b, p) == ReadKey(a, p)
  {
  }

  /** Reading the definition of record `i` gives that record back and moves to the next definition. */
  lemma ReadEncodedRecord(recs: seq<Record>, i: nat)
    requires AllValid(recs) && i < |recs|
    ensures Encode(recs)[6 * i] == KeyCommand
    ensures ReadKey(Encode(recs), 6 * i + 1) == Ok((recs[i].name, recs[i], 6 * (i + 1)))
  {
    var x := recs[i];
    EncodeAt(recs, i);
    HexLiteralFour(x.prefix);
    HexLiteralFour(x.suffix);
    ReadKeyOfFields(Encode(recs), 6 * i + 1, x);
    assert 6 * i + 1 + 5 == 6 * (i + 1);
  }

  /** No record from `i` on reuses a name of an earlier record or of `acc`. */
  predicate FreshFrom(recs: seq<Record>, i: nat, acc: Table)
  {
    && (forall j :: i <= j < |recs| ==> recs[j].name !in acc)
    && (forall j, k :: i <= j < k < |recs| ==> recs[j].name != recs[k].name)
  }

  /** Reading the definition of record `i` either rejects its name as a duplicate or files it and goes on. */
  lemma ReadEncodedStep(recs: seq<Record>, rest: seq<string>, i: nat, acc: Table)
    requires AllValid(recs) && i < |recs| && ValidTable(acc)
    ensures var tokens, x := Encode(recs) + rest, recs[i];
      ReadTableFrom(tokens, 6 * i, acc) ==
        if x.name in acc then Err(DuplicateKey(x.name))
        else ReadTableFrom(tokens, 6 * (i + 1), acc[x.name := x])
  {
    var e := Encode(recs);
    var tokens := e + rest;
    ReadEncodedRecord(recs, i);
    ReadKeyPrefix(e, rest, 6 * i + 1);
    assert tokens[6 * i] == e[6 * i];
    ReadRecordStep(tokens, 6 * i, acc, recs[i], 6 * (i + 1));
  }

  /** Under fresh names from `i` on, the records after `i` have distinct names, none of them that of record `i`. */
  lemma FreshTail(recs: seq<Record>, i: nat, acc: Table)
    requires i < |recs| && FreshFrom(recs, i, acc)
    ensures DistinctNames(recs[i + 1..])
    ensures recs[i].name !in TableOf(recs[i + 1..])
  {
    var tail := recs[i + 1..];
    forall j, k | 0 <= j < k < |tail|
      ensures tail[j].name != tail[k].name
    {
      assert tail[j] == recs[i + 1 + j] && tail[k] == recs[i + 1 + k];
    }
    forall j | 0 <= j < |tail|
      ensures tail[j].name != recs[i].name
    {
      assert tail[j] == recs[i + 1 + j];
    }
    TableOfContents(tail);
  }

  /** Filing record `i` first keeps freshness and the final table the same. */
  lemma FreshStep(recs: seq<Record>, i: nat, acc: Table)
    requires i < |recs| && recs[i].name !in acc
    ensures var x := recs[i];
      && (FreshFrom(recs, i, acc) <==> FreshFrom(recs, i + 1, acc[x.name := x]))
      && (FreshFrom(recs, i, acc) ==> acc + TableOf(recs[i..]) == acc[x.name := x] + TableOf(recs[i + 1..]))
  {
    var x := recs[i];
    var tail := recs[i + 1..];
    assert recs[i..] == [x] + tail;
    assert ([x] + tail)[1..] == tail;
    if FreshFrom(recs, i, acc) {
      FreshTail(recs, i, acc);
    }
  }

  /**
   * Reading the definitions of records `i..` into `acc`, whatever tokens
   * follow them, fails with a duplicate key when a name repeats or is
   * already in `acc`, and otherwise adds exactly those records and goes on
   * after the last definition.
   */
  lemma {:induction false} ReadEncodedFrom(recs: seq<Record>, rest: seq<string>, i: nat, acc: Table)
    requires AllValid(recs) && i <= |recs| && ValidTable(acc)
    ensures FreshFrom(recs, i, acc) ==> ValidTable(acc + TableOf(recs[i..]))
    ensures FreshFrom(recs, i, acc) ==>
      ReadTableFrom(Encode(recs) + rest, 6 * i, acc) == ReadTableFrom(Encode(recs) + rest, 6 * |recs|, acc + TableOf(recs[i..]))
    ensures !FreshFrom(recs, i, acc) ==>
      ReadTableFrom(Encode(recs) + rest, 6 * i, acc).Err? && ReadTableFrom(Encode(recs) + rest, 6 * i, acc).error.DuplicateKey?
    decreases |recs| - i
  {
    if i < |recs| {
      var x := recs[i];
      ReadEncodedStep(recs, rest, i, acc);
      if x.name !in acc {
        ReadEncodedFrom(recs, rest, i + 1, acc[x.name := x]);
        FreshStep(recs, i, acc);
      }
    } else {
      assert TableOf(recs[i..]) == map[];
      assert acc + map[] == acc;
    }
  }

  /**
   * Reading the definitions of valid records, whatever follows them, fails
   * with a duplicate key when two share a name (never overwriting one), and
   * otherwise continues after them with exactly the table of those records.
   */
  lemma ParseEncodedThen(recs: seq<Record>, rest: seq<string>)
    requires AllValid(recs)
    ensures DistinctNames(recs) ==> ValidTable(TableOf(recs))
    ensures DistinctNames(recs) ==>
      Parse(Encode(recs) + rest) == ReadTableFrom(Encode(recs) + rest, 6 * |recs|, TableOf(recs))
    ensures !DistinctNames(recs) ==>
      Parse(Encode(recs) + rest).Err? && Parse(Encode(recs) + rest).error.DuplicateKey?
  {
    ReadEncodedFrom(recs, rest, 0, map[]);
    assert recs[0..] == recs;
    assert map[] + TableOf(recs) == TableOf(recs);
    assert FreshFrom(recs, 0, map[]) <==> DistinctNames(recs);
  }

  /**
   * The definitions of valid records parse exactly when their names are
   * distinct, and then into the table of those records.
   */
  lemma ParseEncoded(recs: seq<Record>)
    requires AllValid(recs)
    ensures Parse(Encode(recs)).Ok? <==> DistinctNames(recs)
    ensures DistinctNames(recs) ==> Parse(Encode(recs)) == Ok(TableOf(recs))
    ensures !DistinctNames(recs) ==> Parse(Encode(recs)).error.DuplicateKey?
  {
    ParseEncodedThen(recs, []);
    assert Encode(recs) + [] == Encode(recs);
  }

  /** After valid definitions, a command token other than `KEY` fails with that token. */
  lemma UnknownCommandAfterRecords(recs: seq<Record>, tok: string, rest: seq<string>)
    requires AllValid(recs) && DistinctNames(recs) && tok != KeyCommand
    ensures Parse(Encode(recs) + ([tok] + rest)) == Err(UnknownCommand(tok))
  {
    ParseEncodedThen(recs, [tok] + rest);
    assert (Encode(recs) + ([tok] + rest))[6 * |recs|] == tok;
  }

  /** After valid definitions, a `KEY` definition that `readKEY` rejects stops the parse with that error. */
  lemma RecordErrorAfterRecords(recs: seq<Record>, rest: seq<string>)
    requires AllValid(recs) && DistinctNames(recs)
    requires ReadKey(Encode(recs) + ([KeyCommand] + rest), 6 * |recs| + 1).Err?
    ensures Parse(Encode(recs) + ([KeyCommand] + rest)) ==
      Err(ReadKey(Encode(recs) + ([KeyCommand] + rest), 6 * |recs| + 1).error)
  {
    ParseEncodedThen(recs, [KeyCommand] + rest);
    assert (Encode(recs) + ([KeyCommand] + rest))[6 * |recs|] == KeyCommand;
  }

  /** Input that ends inside a `KEY` definition fails at the end of the tokens; it does not return the table so far. */
  lemma TruncatedRecordFails(recs: seq<Record>, x: Record, k: nat)
    requires AllValid(recs) && DistinctNames(recs) && ValidRecord(x)
    requires 1 <= k < 6
    ensures Parse(Encode(recs) + EncodeRecord(x)[..k]) == Err(EndOfTokens)
  {
    var part := EncodeRecord(x)[..k];
    ParseEncodedThen(recs, part);
    var tokens := Encode(recs) + part;
    var p := 6 * |recs|;
    assert tokens[p] == KeyCommand;
    HexLiteralFour(x.prefix);
    HexLiteralFour(x.suffix);
    assert k > 3 ==> tokens[p + 3] == "0x" + HexDigits(x.prefix, 4);
    assert k > 4 ==> tokens[p + 4] == "0x" + HexDigits(x.suffix, 4);
  }

  /** Under distinct names, the same records in any order make the same table. */
  lemma TableOfSameRecords(recs1: seq<Record>, recs2: seq<Record>)
    requires DistinctNames(recs1) && DistinctNames(recs2)
    requires forall x :: x in recs1 <==> x in recs2
    ensures TableOf(recs1) == TableOf(recs2)
  {
    TableOfContents(recs1);
    TableOfContents(recs2);
    var t1, t2 := TableOf(recs1), TableOf(recs2);
    forall n | n in t1
      ensures n in t2 && t2[n] == t1[n]
    {
      var i :| 0 <= i < |recs1| && recs1[i].name == n;
      assert recs1[i] in recs2;
      var j :| 0 <= j < |recs2| && recs2[j] == recs1[i];
    }
    forall n | n in t2
      ensures n in t1
    {
      var j :| 0 <= j < |recs2| && recs2[j].name == n;
      assert recs2[j] in recs1;
      var i :| 0 <= i < |recs1| && recs1[i] == recs2[j];
    }
    assert t1 == t2;
  }

  /**
   * Definitions of the same records in any order parse into the same table and
   * so generate the same header: the output does not depend on input order.
   */
  lemma ParseOrderIndependent(recs1: seq<Record>, recs2: seq<Record>)
    requires AllValid(recs1) && DistinctNames(recs1)
    requires AllValid(recs2) && DistinctNames(recs2)
    requires forall x :: x in recs1 <==> x in recs2
    ensures Parse(Encode(recs1)) == Parse(Encode(recs2))
    ensures Generate(Encode(recs1)) == Generate(Encode(recs2))
  {
    ParseEncoded(recs1);
    ParseEncoded(recs2);
    TableOfSameRecords(recs1, recs2);
  }
}
