/**
 * The table reader: `readKEY` and `readTable`. The shared token iterator
 * is the token sequence together with the index of the next token; a
 * function that consumes tokens returns the index after the last one it
 * took.
 */
module Reader {
  import opened Wrappers
  import opened Literals
  import opened Keys

  /** Why a parse was abandoned; the first error aborts the whole parse. */
  datatype Error =
    | EndOfTokens                 // `next(tokens)` raised StopIteration inside a `KEY` record
    | BadLiteral(token: string)   // `int(token, 0)` raised ValueError
    | UnknownCommand(token: string)
    | UnknownKeyType              // the message formats the builtin `type`, not the tag
    | UnknownValueType(token: string)
    | PrefixOutOfRange(value: int)
    | SuffixOutOfRange(value: int)
    | DuplicateKey(name: string)
  {
    /** The four checks `readKEY` runs once all five fields are read. */
    predicate IsFieldCheck()
    {
      UnknownKeyType? || UnknownValueType? || PrefixOutOfRange? || SuffixOutOfRange?
    }
  }

  /** The only entry of `cmdTable`. */
  const KeyCommand := "KEY"

  /** What a successful `readKEY` returns: the name, its record, and the index after the record. */
  type KeyRead = (string, Record, nat)

  /** All five fields of a record are present at `pos` and both number literals parse. */
  predicate FieldsRead(tokens: seq<string>, pos: nat)
  {
    pos + 5 <= |tokens| && ParseInt(tokens[pos + 2]).Some? && ParseInt(tokens[pos + 3]).Some?
  }

  /**
   * `readKEY`: read key type, name, prefix, suffix and value type, converting
   * each literal as soon as it is read, then check key type, value type,
   * prefix and suffix in that order.
   */
  function ReadKey(tokens: seq<string>, pos: nat): (r: Result<KeyRead, Error>)
    // a successful read consumes exactly five tokens into a valid record named by the second one
    ensures r.Ok? ==>
      var (name, x, next) := r.value;
      && next == pos + 5 && next <= |tokens|
      && name == x.name == tokens[pos + 1]
      && x.keytype == tokens[pos] && x.valtype == tokens[pos + 4]
      && ParseInt(tokens[pos + 2]) == Some(x.prefix)
      && ParseInt(tokens[pos + 3]) == Some(x.suffix)
      && ValidRecord(x)
    // it fails exactly when a field is missing or malformed or a check fails
    ensures r.Ok? <==> (
      && FieldsRead(tokens, pos)
      && tokens[pos] in KeyTypeTags && tokens[pos + 4] in ValueTypes
      && 0 <= ParseInt(tokens[pos + 2]).value <= 0xffff
      && 0 <= ParseInt(tokens[pos + 3]).value <= 0xffff)
    // all five fields are read before any check
    ensures r.Err? && r.error.IsFieldCheck() ==> FieldsRead(tokens, pos)
    ensures !FieldsRead(tokens, pos) ==> r.Err? && (r.error == EndOfTokens || r.error.BadLiteral?)
    // running out of tokens is reported only when a field is missing
    ensures r == Err(EndOfTokens) ==> pos + 5 > |tokens|
    // each literal is converted as soon as it is read: the first that does not convert is the error
    ensures pos + 2 < |tokens| && ParseInt(tokens[pos + 2]) == None ==> r == Err(BadLiteral(tokens[pos + 2]))
    ensures pos + 3 < |tokens| && ParseInt(tokens[pos + 2]).Some? && ParseInt(tokens[pos + 3]) == None ==>
      r == Err(BadLiteral(tokens[pos + 3]))
    ensures r.Err? && r.error.BadLiteral? ==>
      || (pos + 2 < |tokens| && ParseInt(tokens[pos + 2]) == None && r.error.token == tokens[pos + 2])
      || (pos + 3 < |tokens| && ParseInt(tokens[pos + 2]).Some? && ParseInt(tokens[pos + 3]) == None
          && r.error.token == tokens[pos + 3])
    // the checks fire in order: key type, value type, prefix, suffix; the first that fails is the error
    ensures FieldsRead(tokens, pos) && tokens[pos] !in KeyTypeTags ==> r == Err(UnknownKeyType)
    ensures FieldsRead(tokens, pos) && tokens[pos] in KeyTypeTags && tokens[pos + 4] !in ValueTypes ==>
      r == Err(UnknownValueType(tokens[pos + 4]))
    ensures (FieldsRead(tokens, pos) && tokens[pos] in KeyTypeTags && tokens[pos + 4] in ValueTypes
             && !(0 <= ParseInt(tokens[pos + 2]).value <= 0xffff)) ==>
      r == Err(PrefixOutOfRange(ParseInt(tokens[pos + 2]).value))
    ensures (FieldsRead(tokens, pos) && tokens[pos] in KeyTypeTags && tokens[pos + 4] in ValueTypes
             && 0 <= ParseInt(tokens[pos + 2]).value <= 0xffff && !(0 <= ParseInt(tokens[pos + 3]).value <= 0xffff)) ==>
      r == Err(SuffixOutOfRange(ParseInt(tokens[pos + 3]).value))
    ensures r == Err(UnknownKeyType) ==> FieldsRead(tokens, pos) && tokens[pos] !in KeyTypeTags
    ensures r.Err? && r.error.UnknownValueType? ==> tokens[pos] in KeyTypeTags && r.error.token == tokens[pos + 4]
    ensures r.Err? && r.error.PrefixOutOfRange? ==>
      tokens[pos] in KeyTypeTags && tokens[pos + 4] in ValueTypes && Some(r.error.value) == ParseInt(tokens[pos + 2])
    ensures r.Err? && r.error.SuffixOutOfRange? ==>
      tokens[pos] in KeyTypeTags && tokens[pos + 4] in ValueTypes
      && 0 <= ParseInt(tokens[pos + 2]).value <= 0xffff && Some(r.error.value) == ParseInt(tokens[pos + 3])
    // the command and duplicate checks belong to the caller
    ensures r.Err? ==> !r.error.UnknownCommand? && !r.error.DuplicateKey?
  {
    if pos >= |tokens| then Err(EndOfTokens)
    else
      var keytype := tokens[pos];
      if pos + 1 >= |tokens| then Err(EndOfTokens)
      else
        var name := tokens[pos + 1];
        if pos + 2 >= |tokens| then Err(EndOfTokens)
        else
          match ParseInt(tokens[pos + 2])
          case None => Err(BadLiteral(tokens[pos + 2]))
          case Some(prefix) =>
            if pos + 3 >= |tokens| then Err(EndOfTokens)
            else
              match ParseInt(tokens[pos + 3])
              case None => Err(BadLiteral(tokens[pos + 3]))
              case Some(suffix) =>
                if pos + 4 >= |tokens| then Err(EndOfTokens)
                else
                  var valtype := tokens[pos + 4];
                  if keytype !in KeyTypeTags then Err(UnknownKeyType)
                  else if valtype !in ValueTypes then Err(UnknownValueType(valtype))
                  else if prefix < 0 || prefix > 0xffff then Err(PrefixOutOfRange(prefix))
                  else if suffix < 0 || suffix > 0xffff then Err(SuffixOutOfRange(suffix))
                  else Ok((name, Record(keytype, name, prefix, suffix, valtype), pos + 5))
  }

  /**
   * The loop of `readTable` from token index `pos` with `acc` built so far:
   * end of tokens where a command is expected returns the table; any other
   * command than `KEY` fails; a record whose name is already present fails.
   */
  function ReadTableFrom(tokens: seq<string>, pos: nat, acc: Table): (r: Result<Table, Error>)
    requires ValidTable(acc)
    // every table returned is valid and extends `acc` without overwriting any entry
    ensures r.Ok? ==> ValidTable(r.value) && acc.Keys <= r.value.Keys
    ensures r.Ok? ==> forall k :: k in acc ==> r.value[k] == acc[k]
    // an error in a record aborts the whole parse: there is no recovery and no partial table
    ensures pos < |tokens| && tokens[pos] == KeyCommand && ReadKey(tokens, pos + 1).Err? ==>
      r == Err(ReadKey(tokens, pos + 1).error)
    decreases |tokens| - pos
  {
    if pos >= |tokens| then Ok(acc)
    else if tokens[pos] != KeyCommand then Err(UnknownCommand(tokens[pos]))
    else
      match ReadKey(tokens, pos + 1)
      case Err(e) => Err(e)
      case Ok((name, x, next)) =>
        if name in acc then Err(DuplicateKey(name))
        else ReadTableFrom(tokens, next, acc[name := x])
  }

  /** `readTable` over an already tokenized input. */
  function Parse(tokens: seq<string>): (r: Result<Table, Error>)
    ensures r.Ok? ==> ValidTable(r.value)
  {
    ReadTableFrom(tokens, 0, map[])
  }

  /** `readTable`: the `while True` loop over the token iterator, filling `result` in place. */
  method ReadTable(tokens: seq<string>) returns (r: Result<Table, Error>)
    ensures r == Parse(tokens)
    ensures r.Ok? ==> ValidTable(r.value)
  {
    var pos := 0;
    var result: Table := map[];
    while pos < |tokens|
      invariant ValidTable(result)
      invariant ReadTableFrom(tokens, pos, result) == Parse(tokens)
      decreases |tokens| - pos
    {
      var tok := tokens[pos];
      pos := pos + 1;
      if tok != KeyCommand {
        return Err(UnknownCommand(tok));
      }
      var read := ReadKey(tokens, pos);
      if read.Err? {
        return Err(read.error);
      }
      var (k, v, next) := read.value;
      if k in result {
        return Err(DuplicateKey(k));
      }
      result := result[k := v];
      pos := next;
    }
    return Ok(result);
  }
}

module ReaderFacts {
  import opened Wrappers
  import opened Keys
  import opened Reader

  /** The name field of each six-token group from `pos` on, the groups `readTable` would read. */
  function NamesRead(tokens: seq<string>, pos: nat): seq<string>
    decreases |tokens| - pos
  {
    if pos + 2 < |tokens| then [tokens[pos + 2]] + NamesRead(tokens, pos + 6) else []
  }

  /** One step of a successful parse: a `KEY` record with a fresh name, read into the table. */
  lemma ParseStep(tokens: seq<string>, pos: nat, acc: Table) returns (x: Record)
    requires ValidTable(acc) && pos < |tokens|
    requires ReadTableFrom(tokens, pos, acc).Ok?
    ensures tokens[pos] == KeyCommand && pos + 6 <= |tokens|
    ensures ReadKey(tokens, pos + 1) == Ok((x.name, x, pos + 6))
    ensures x.name == tokens[pos + 2] && x.name !in acc && ValidTable(acc[x.name := x])
    ensures ReadTableFrom(tokens, pos, acc) == ReadTableFrom(tokens, pos + 6, acc[x.name := x])
  {
    var read := ReadKey(tokens, pos + 1);
    x := read.value.1;
  }

  /** A `KEY` record read at `pos` is rejected when its name is taken and otherwise filed before reading on. */
  lemma ReadRecordStep(tokens: seq<string>, pos: nat, acc: Table, x: Record, next: nat)
    requires ValidTable(acc) && pos < |tokens| && tokens[pos] == KeyCommand
    requires ReadKey(tokens, pos + 1) == Ok((x.name, x, next))
    ensures ReadTableFrom(tokens, pos, acc) ==
      if x.name in acc then Err(DuplicateKey(x.name)) else ReadTableFrom(tokens, next, acc[x.name := x])
  {
  }

  /** The token at `i` is the command `KEY`. */
  predicate CommandAt(tokens: seq<string>, i: nat)
  {
    i < |tokens| && tokens[i] == KeyCommand
  }

  /** Each of the `n` six-token groups from `pos` on starts with `KEY`. */
  predicate CommandsFrom(tokens: seq<string>, pos: nat, n: nat)
  {
    forall k :: 0 <= k < n ==> CommandAt(tokens, pos + 6 * k)
  }

  /** A successful parse read `n` whole records, each introduced by `KEY`. */
  lemma {:induction false} ParseOnlyKeyCommands(tokens: seq<string>, pos: nat, acc: Table) returns (n: nat)
    requires ValidTable(acc) && pos <= |tokens|
    requires ReadTableFrom(tokens, pos, acc).Ok?
    ensures |tokens| == pos + 6 * n
    ensures CommandsFrom(tokens, pos, n)
    decreases |tokens| - pos
  {
    if pos == |tokens| {
      n := 0;
    } else {
      var x := ParseStep(tokens, pos, acc);
      var m := ParseOnlyKeyCommands(tokens, pos + 6, acc[x.name := x]);
      n := m + 1;
      CommandsShift(tokens, pos, m);
    }
  }

  /** A `KEY` at `pos` followed by `m` groups introduced by `KEY` makes `m + 1` such groups. */
  lemma CommandsShift(tokens: seq<string>, pos: nat, m: nat)
    requires CommandAt(tokens, pos) && CommandsFrom(tokens, pos + 6, m)
    ensures CommandsFrom(tokens, pos, m + 1)
  {
    forall k | 0 < k < m + 1
      ensures CommandAt(tokens, pos + 6 * k)
    {
      assert pos + 6 * k == pos + 6 + 6 * (k - 1);
    }
  }

  /**
   * After a successful parse no name was read twice or was already present,
   * and the table holds exactly the names already present and the names read.
   */
  lemma {:induction false} ParseKeysAreNamesRead(tokens: seq<string>, pos: nat, acc: Table)
    requires ValidTable(acc) && pos <= |tokens|
    requires ReadTableFrom(tokens, pos, acc).Ok?
    ensures forall i :: 0 <= i < |NamesRead(tokens, pos)| ==> NamesRead(tokens, pos)[i] !in acc
    ensures forall i, j :: 0 <= i < j < |NamesRead(tokens, pos)| ==> NamesRead(tokens, pos)[i] != NamesRead(tokens, pos)[j]
    ensures forall n :: n in ReadTableFrom(tokens, pos, acc).value <==> n in acc || n in NamesRead(tokens, pos)
    decreases |tokens| - pos
  {
    if pos < |tokens| {
      var x := ParseStep(tokens, pos, acc);
      var acc' := acc[x.name := x];
      ParseKeysAreNamesRead(tokens, pos + 6, acc');
      assert NamesRead(tokens, pos) == [x.name] + NamesRead(tokens, pos + 6);
    }
  }

  /** A command token other than `KEY` at the start of the remaining input fails with that token, before any record is added. */
  lemma UnknownCommandFails(tokens: seq<string>, pos: nat, acc: Table)
    requires ValidTable(acc) && pos < |tokens| && tokens[pos] != KeyCommand
    ensures ReadTableFrom(tokens, pos, acc) == Err(UnknownCommand(tokens[pos]))
  {
  }
}
