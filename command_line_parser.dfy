/**
 * CommandLineParser: reads `-name=value` tokens from the command line into
 * per-type value lists and a list of loose flags, for a fixed table of
 * defined arguments. The command line is an input instead of
 * Environment.GetCommandLineArgs.
 */
module CommandLine {
  import opened Wrappers
  import opened Strings
  import opened Numbers

  const ArgumentHelp: string := "help"
  const ArgumentConfig: string := "config"
  const ArgumentRows: string := "rows"
  const ArgumentColumns: string := "columns"

  /** Single keeps the first value recorded; Multiple keeps them all. */
  datatype ArgumentType = Single | Multiple

  datatype ValueType = StringValue | IntegerValue | DoubleValue | LooseArgument

  datatype Argument = Argument(
    name: string,
    argType: ArgumentType,
    valueType: ValueType,
    ignoreConditions: seq<string>)

  /** The defined-argument table is keyed by each argument's own name. */
  ghost predicate WellFormed(defined: map<string, Argument>) {
    forall a :: a in defined ==> defined[a].name == a
  }

  /** The argument table the parser's constructor defines. */
  function ArgumentTable(): (table: map<string, Argument>)
    ensures WellFormed(table)
    ensures table.Keys == {ArgumentHelp, ArgumentConfig, ArgumentRows, ArgumentColumns}
    ensures forall a :: a in table ==> table[a].argType == Single
  {
    map[
      ArgumentHelp := Argument(ArgumentHelp, Single, LooseArgument, []),
      ArgumentConfig := Argument(ArgumentConfig, Single, StringValue, []),
      ArgumentRows := Argument(ArgumentRows, Single, IntegerValue, [ArgumentConfig]),
      ArgumentColumns := Argument(ArgumentColumns, Single, IntegerValue, [ArgumentConfig])
    ]
  }

  /** The recorded values: a value list per argument for each value type, and the loose flags. */
  datatype Store = Store(
    strings: map<string, seq<string>>,
    ints: map<string, seq<int>>,
    doubles: map<string, seq<real>>,
    loose: seq<string>)

  const EmptyStore: Store := Store(map[], map[], map[], [])

  /** Dictionary.Add's exception when a name is defined twice. */
  datatype ParserError = DuplicateArgument

  /** A token once its leading dashes are trimmed and it is split on '=': the name and, if any, the value. */
  datatype Command = Command(name: string, value: Option<string>)

  /**
   * Parse's reading of one token: None unless it starts with '-'; otherwise
   * the text before the first '=' is the name and the text between the first
   * and the second '=' is the value.
   */
  function Decode(token: string): (c: Option<Command>)
    ensures c.Some? <==> StartsWith(token, "-")
  {
    if !StartsWith(token, "-") then None
    else
      var parts := Split(TrimStart(token, '-'), {'='});
      Some(Command(parts[0], if |parts| > 1 then Some(parts[1]) else None))
  }

  /** Joining with a separator, seen from the front. */
  lemma {:induction false} JoinFront(parts: seq<string>, sep: char)
    requires |parts| >= 2
    ensures Join(parts, sep) == parts[0] + [sep] + Join(parts[1..], sep)
  {
    if |parts| > 2 {
      var n := |parts| - 1;
      JoinFront(parts[..n], sep);
      assert parts[..n][1..] == parts[1..][..n - 1];
      assert parts[..n][0] == parts[0];
    }
  }

  /**
   * What Decode reads from a token: with the dashes trimmed, the token is the
   * name alone, or the name, '=' and the value, possibly followed by '=' and more;
   * neither the name nor the value contains '='.
   */
  lemma DecodeShape(token: string)
    requires Decode(token).Some?
    ensures var c := Decode(token).value;
      var body := TrimStart(token, '-');
      && '=' !in c.name
      && (c.value.None? ==> body == c.name)
      && (c.value.Some? ==>
            '=' !in c.value.value &&
            exists rest :: body == c.name + "=" + c.value.value + rest && (rest == [] || rest[0] == '='))
  {
    var body := TrimStart(token, '-');
    var parts := Split(body, {'='});
    SplitFront(body);
    PartsShape(body, parts);
  }

  /** DecodeShape stated on the pieces alone. */
  lemma PartsShape(body: string, parts: seq<string>)
    requires |parts| >= 1 && NoneOf(parts[0], {'='})
    requires |parts| == 1 ==> body == parts[0]
    requires |parts| >= 2 ==> NoneOf(parts[1], {'='})
    requires |parts| == 2 ==> body == parts[0] + "=" + parts[1]
    requires |parts| > 2 ==> body == parts[0] + "=" + parts[1] + "=" + Join(parts[2..], '=')
    ensures '=' !in parts[0]
    ensures |parts| >= 2 ==>
      ('=' !in parts[1] && exists rest :: body == parts[0] + "=" + parts[1] + rest && (rest == [] || rest[0] == '='))
  {
    if |parts| >= 2 {
      var rest := if |parts| == 2 then [] else "=" + Join(parts[2..], '=');
      assert body == parts[0] + "=" + parts[1] + rest;
    }
  }

  /** The first two pieces of a split on '=' and what follows them. */
  lemma SplitFront(body: string)
    ensures var parts := Split(body, {'='});
      && NoneOf(parts[0], {'='})
      && (|parts| == 1 ==> body == parts[0])
      && (|parts| >= 2 ==> NoneOf(parts[1], {'='}))
      && (|parts| == 2 ==> body == parts[0] + "=" + parts[1])
      && (|parts| > 2 ==> body == parts[0] + "=" + parts[1] + "=" + Join(parts[2..], '='))
  {
    var parts := Split(body, {'='});
    JoinSplit(body, '=');
    if |parts| >= 2 {
      JoinFront(parts, '=');
      if |parts| > 2 {
        JoinFront(parts[1..], '=');
        assert parts[1..][1..] == parts[2..];
      }
    }
  }

  /** Adds a loose flag unless it is already listed. */
  function AddLoose(st: Store, name: string): (r: Store)
    ensures name in r.loose && st.loose <= r.loose
    ensures r.strings == st.strings && r.ints == st.ints && r.doubles == st.doubles
  {
    if name in st.loose then st else st.(loose := st.loose + [name])
  }

  /**
   * What ParseArgument records for a value given to a defined argument: a
   * string value is appended (kept only if it is the first for a Single
   * argument); an integer value likewise once it converts, and nothing when it
   * does not; a loose argument is listed once and its value ignored.
   */
  function Record(arg: Argument, st: Store, value: string): (r: Store)
    ensures r.doubles == st.doubles && st.loose <= r.loose
    ensures arg.valueType != LooseArgument ==> r.loose == st.loose
  {
    match arg.valueType
    case StringValue =>
      if arg.name in st.strings then
        if arg.argType != Single then st.(strings := st.strings[arg.name := st.strings[arg.name] + [value]]) else st
      else st.(strings := st.strings[arg.name := [value]])
    case IntegerValue =>
      (match ToInt32(value)
       case None => st
       case Some(n) =>
         if arg.name in st.ints then
           if arg.argType != Single then st.(ints := st.ints[arg.name := st.ints[arg.name] + [n]]) else st
         else st.(ints := st.ints[arg.name := [n]]))
    case DoubleValue => st
    case LooseArgument => AddLoose(st, arg.name)
  }

  /**
   * One iteration of Parse's loop: tokens without a leading '-' and names
   * that are not defined are ignored; a value is recorded; a loose argument
   * without a value is listed; any other argument without a value records nothing.
   */
  function Step(defined: map<string, Argument>, st: Store, token: string): (r: Store)
    ensures r.doubles == st.doubles && st.loose <= r.loose
  {
    match Decode(token)
    case None => st
    case Some(c) =>
      if c.name !in defined then st
      else if c.value.Some? then Record(defined[c.name], st, c.value.value)
      else if defined[c.name].valueType == LooseArgument then AddLoose(st, c.name)
      else st
  }

  /**
   * Parse's loop over a run of tokens, in order. No double value is ever
   * recorded, and the loose list only grows at its end.
   */
  function ParseTokens(defined: map<string, Argument>, st: Store, tokens: seq<string>): (r: Store)
    ensures r.doubles == st.doubles && st.loose <= r.loose
  {
    if tokens == [] then st
    else Step(defined, ParseTokens(defined, st, tokens[..|tokens| - 1]), tokens[|tokens| - 1])
  }

  /** The tokens Parse reads: every command-line element but the first, which names the executable. */
  function UserTokens(args: seq<string>): (tokens: seq<string>)
    ensures |tokens| == if args == [] then 0 else |args| - 1
    ensures forall k :: 0 <= k < |tokens| ==> tokens[k] == args[k + 1]
  {
    if args == [] then [] else args[1..]
  }

  /** Parse's effect on the recorded values. */
  function ParseArgs(defined: map<string, Argument>, st: Store, args: seq<string>): (r: Store)
    ensures r.doubles == st.doubles && st.loose <= r.loose
  {
    ParseTokens(defined, st, UserTokens(args))
  }

  /** The type GetValue is asked for (its type parameter). */
  datatype RequestedType = StringType | IntType | DoubleType | OtherType

  datatype Value = StringVal(s: string) | IntVal(i: int) | DoubleVal(d: real)

  /** GetValue's result: the value (true), nothing (false) or the type-mismatch exception. */
  datatype Lookup = Found(value: Value) | NotFound | TypeMismatch

  /** IsMatchingType: the requested type is the one the value type stores; nothing matches a loose argument. */
  function IsMatchingType(requested: RequestedType, valueType: ValueType): (r: bool)
    ensures valueType == LooseArgument ==> !r
    ensures r ==> (requested == StringType <==> valueType == StringValue)
    ensures r ==> (requested == IntType <==> valueType == IntegerValue)
  {
    match valueType
    case StringValue => requested == StringType
    case IntegerValue => requested == IntType
    case DoubleValue => requested == DoubleType
    case LooseArgument => false
  }

  /** Whether `st` records anything for `a` in the place its value type uses. */
  predicate Present(st: Store, a: string, valueType: ValueType) {
    match valueType
    case StringValue => a in st.strings
    case IntegerValue => a in st.ints
    case DoubleValue => a in st.doubles
    case LooseArgument => a in st.loose
  }

  /** The values `st` holds for `a` under its value type, in order. */
  function Stored(st: Store, a: string, valueType: ValueType): seq<Value> {
    match valueType
    case StringValue =>
      if a in st.strings then seq(|st.strings[a]|, k requires 0 <= k < |st.strings[a]| => StringVal(st.strings[a][k])) else []
    case IntegerValue =>
      if a in st.ints then seq(|st.ints[a]|, k requires 0 <= k < |st.ints[a]| => IntVal(st.ints[a][k])) else []
    case DoubleValue =>
      if a in st.doubles then seq(|st.doubles[a]|, k requires 0 <= k < |st.doubles[a]| => DoubleVal(st.doubles[a][k])) else []
    case LooseArgument => []
  }

  /** The value one token offers argument `a`: it names `a` with a value that `a`'s value type can hold. */
  function Contribution(defined: map<string, Argument>, token: string, a: string): Option<Value> {
    match Decode(token)
    case Some(Command(n, Some(v))) =>
      if n == a && a in defined then
        match defined[a].valueType
        case StringValue => Some(StringVal(v))
        case IntegerValue => (match ToInt32(v) case Some(i) => Some(IntVal(i)) case None => None)
        case DoubleValue => None
        case LooseArgument => None
      else None
    case _ => None
  }

  /** All values the tokens offer `a`, in command-line order. */
  function Contributions(defined: map<string, Argument>, tokens: seq<string>, a: string): seq<Value> {
    if tokens == [] then []
    else
      var before := Contributions(defined, tokens[..|tokens| - 1], a);
      match Contribution(defined, tokens[|tokens| - 1], a)
      case Some(v) => before + [v]
      case None => before
  }

  /** What an argument type keeps of the values offered: the first one for Single, all for Multiple. */
  function Kept(argType: ArgumentType, offered: seq<Value>): seq<Value> {
    if argType == Single && |offered| > 1 then offered[..1] else offered
  }

  /**
   * After parsing, the values held for a defined value argument are exactly
   * those the tokens offered it, in order, cut to the first one for a Single
   * argument; and it is present exactly when some token offered a value.
   */
  lemma {:induction false} StoredAfterParse(defined: map<string, Argument>, tokens: seq<string>, a: string)
    requires WellFormed(defined) && a in defined && defined[a].valueType != LooseArgument
    ensures var st := ParseTokens(defined, EmptyStore, tokens);
      var offered := Contributions(defined, tokens, a);
      && Stored(st, a, defined[a].valueType) == Kept(defined[a].argType, offered)
      && (Present(st, a, defined[a].valueType) <==> offered != [])
  {
    if tokens != [] {
      var n := |tokens| - 1;
      StoredAfterParse(defined, tokens[..n], a);
      var st := ParseTokens(defined, EmptyStore, tokens[..n]);
      var t := tokens[n];
      StepStored(defined, st, t, a);
    }
  }

  /** One step adds to `a`'s values exactly the value the token offers it, as its argument type keeps it. */
  lemma StepStored(defined: map<string, Argument>, st: Store, t: string, a: string)
    requires WellFormed(defined) && a in defined && defined[a].valueType != LooseArgument
    requires Present(st, a, defined[a].valueType) <==> Stored(st, a, defined[a].valueType) != []
    requires defined[a].argType == Single ==> |Stored(st, a, defined[a].valueType)| <= 1
    ensures var st' := Step(defined, st, t);
      var vt := defined[a].valueType;
      && (Present(st', a, vt) <==> Present(st, a, vt) || Contribution(defined, t, a).Some?)
      && Stored(st', a, vt) == (match Contribution(defined, t, a)
                                 case None => Stored(st, a, vt)
                                 case Some(v) => Kept(defined[a].argType, Stored(st, a, vt) + [v]))
      && (Present(st', a, vt) <==> Stored(st', a, vt) != [])
      && (defined[a].argType == Single ==> |Stored(st', a, vt)| <= 1)
  {
    if Contribution(defined, t, a).Some? {
      StepStoredOffered(defined, st, t, a);
    } else {
      StepStoredUnchanged(defined, st, t, a);
    }
  }

  /** A token that offers `a` a value appends it to `a`'s values, as `a`'s argument type keeps it. */
  lemma StepStoredOffered(defined: map<string, Argument>, st: Store, t: string, a: string)
    requires WellFormed(defined) && a in defined && defined[a].valueType != LooseArgument
    requires Present(st, a, defined[a].valueType) <==> Stored(st, a, defined[a].valueType) != []
    requires defined[a].argType == Single ==> |Stored(st, a, defined[a].valueType)| <= 1
    requires Contribution(defined, t, a).Some?
    ensures var vt := defined[a].valueType;
      && Present(Step(defined, st, t), a, vt)
      && Stored(Step(defined, st, t), a, vt) ==
           Kept(defined[a].argType, Stored(st, a, vt) + [Contribution(defined, t, a).value])
  {
    var c := Decode(t).value;
    assert c.name == a && c.value.Some?;
    assert Step(defined, st, t) == Record(defined[a], st, c.value.value);
    if defined[a].valueType == StringValue {
      RecordOwnString(defined[a], st, c.value.value);
    } else {
      RecordOwnInt(defined[a], st, c.value.value);
    }
  }

  /** A token that offers `a` nothing leaves what is recorded for `a` as it was. */
  lemma StepStoredUnchanged(defined: map<string, Argument>, st: Store, t: string, a: string)
    requires WellFormed(defined) && a in defined && defined[a].valueType != LooseArgument
    requires Contribution(defined, t, a).None?
    ensures var vt := defined[a].valueType;
      && Present(Step(defined, st, t), a, vt) == Present(st, a, vt)
      && Stored(Step(defined, st, t), a, vt) == Stored(st, a, vt)
  {
    var vt := defined[a].valueType;
    match Decode(t)
    case None =>
    case Some(c) =>
      if c.name !in defined {
      } else if c.value.None? {
        SameForStored(st, Step(defined, st, t), a, vt);
      } else if c.name != a {
        var arg := defined[c.name];
        assert arg.name == c.name;
        RecordElsewhere(arg, st, c.value.value, a);
        SameForStored(st, Record(arg, st, c.value.value), a, vt);
      } else {
        assert vt == IntegerValue ==> ToInt32(c.value.value).None?;
      }
  }

  /** Recording a value for another argument leaves `a`'s entries as they were. */
  lemma RecordElsewhere(arg: Argument, st: Store, value: string, a: string)
    requires arg.name != a
    ensures SameFor(st, Record(arg, st, value), a)
  {
  }

  /** Two stores hold the same entries for `a` in each value map. */
  predicate SameFor(st: Store, st': Store, a: string) {
    && (a in st.strings <==> a in st'.strings) && (a in st.strings ==> st.strings[a] == st'.strings[a])
    && (a in st.ints <==> a in st'.ints) && (a in st.ints ==> st.ints[a] == st'.ints[a])
    && (a in st.doubles <==> a in st'.doubles) && (a in st.doubles ==> st.doubles[a] == st'.doubles[a])
  }

  lemma SameForStored(st: Store, st': Store, a: string, vt: ValueType)
    requires vt != LooseArgument && SameFor(st, st', a)
    ensures Present(st', a, vt) == Present(st, a, vt) && Stored(st', a, vt) == Stored(st, a, vt)
  {
  }

  /** Recording a string value for `arg` appends it to `arg`'s values, as its argument type keeps it. */
  lemma RecordOwnString(arg: Argument, st: Store, v: string)
    requires arg.valueType == StringValue
    requires Present(st, arg.name, StringValue) <==> Stored(st, arg.name, StringValue) != []
    requires arg.argType == Single ==> |Stored(st, arg.name, StringValue)| <= 1
    ensures Present(Record(arg, st, v), arg.name, StringValue)
    ensures Stored(Record(arg, st, v), arg.name, StringValue) ==
      Kept(arg.argType, Stored(st, arg.name, StringValue) + [StringVal(v)])
  {
    var a := arg.name;
    if a in st.strings && arg.argType != Single {
      var before := st.strings[a];
      var after := before + [v];
      assert Stored(Record(arg, st, v), a, StringValue) == seq(|after|, k requires 0 <= k < |after| => StringVal(after[k]));
    }
  }

  /** Recording an integer value for `arg` appends it when it converts, as its argument type keeps it, and does nothing otherwise. */
  lemma RecordOwnInt(arg: Argument, st: Store, v: string)
    requires arg.valueType == IntegerValue
    requires Present(st, arg.name, IntegerValue) <==> Stored(st, arg.name, IntegerValue) != []
    requires arg.argType == Single ==> |Stored(st, arg.name, IntegerValue)| <= 1
    ensures ToInt32(v).None? ==> Record(arg, st, v) == st
    ensures ToInt32(v).Some? ==> Present(Record(arg, st, v), arg.name, IntegerValue)
    ensures ToInt32(v).Some? ==> (Stored(Record(arg, st, v), arg.name, IntegerValue) ==
      Kept(arg.argType, Stored(st, arg.name, IntegerValue) + [IntVal(ToInt32(v).value)]))
  {
    var a := arg.name;
    if ToInt32(v).Some? && a in st.ints && arg.argType != Single {
      var before := st.ints[a];
      var after := before + [ToInt32(v).value];
      assert Stored(Record(arg, st, v), a, IntegerValue) == seq(|after|, k requires 0 <= k < |after| => IntVal(after[k]));
    }
  }

  /** No entry of the list appears twice. */
  predicate NoDuplicates(s: seq<string>) {
    forall i, j :: 0 <= i < j < |s| ==> s[i] != s[j]
  }

  /**
   * What the recorded values always satisfy: every value list belongs to a
   * defined argument of that value type, is non-empty and holds one value
   * for a Single argument; the loose list holds distinct defined loose arguments.
   */
  ghost predicate Consistent(defined: map<string, Argument>, st: Store) {
    && (forall a :: a in st.strings ==> (a in defined && defined[a].valueType == StringValue
          && st.strings[a] != [] && (defined[a].argType == Single ==> |st.strings[a]| == 1)))
    && (forall a :: a in st.ints ==> (a in defined && defined[a].valueType == IntegerValue
          && st.ints[a] != [] && (defined[a].argType == Single ==> |st.ints[a]| == 1)))
    && (forall a :: a in st.doubles ==> (a in defined && defined[a].valueType == DoubleValue
          && st.doubles[a] != [] && (defined[a].argType == Single ==> |st.doubles[a]| == 1)))
    && (forall k :: 0 <= k < |st.loose| ==> st.loose[k] in defined && defined[st.loose[k]].valueType == LooseArgument)
    && NoDuplicates(st.loose)
  }

  lemma EmptyConsistent(defined: map<string, Argument>)
    ensures Consistent(defined, EmptyStore)
  {
  }

  /** Recording a value for a defined argument keeps the recorded values consistent. */
  lemma RecordConsistent(defined: map<string, Argument>, st: Store, arg: Argument, value: string)
    requires WellFormed(defined) && arg.name in defined && defined[arg.name] == arg
    requires Consistent(defined, st)
    ensures Consistent(defined, Record(arg, st, value))
  {
    if arg.valueType == LooseArgument {
      AddLooseConsistent(defined, st, arg.name);
    }
  }

  /** Listing a defined loose argument keeps the recorded values consistent. */
  lemma AddLooseConsistent(defined: map<string, Argument>, st: Store, name: string)
    requires name in defined && defined[name].valueType == LooseArgument
    requires Consistent(defined, st)
    ensures Consistent(defined, AddLoose(st, name))
  {
  }

  /** One step of Parse keeps the recorded values consistent. */
  lemma StepConsistent(defined: map<string, Argument>, st: Store, t: string)
    requires WellFormed(defined) && Consistent(defined, st)
    ensures Consistent(defined, Step(defined, st, t))
  {
    match Decode(t)
    case None =>
    case Some(c) =>
      if c.name in defined && c.value.Some? {
        RecordConsistent(defined, st, defined[c.name], c.value.value);
      }
  }

  /** Parsing any tokens from consistent values leaves them consistent. */
  lemma {:induction false} ParseConsistent(defined: map<string, Argument>, st: Store, tokens: seq<string>)
    requires WellFormed(defined) && Consistent(defined, st)
    ensures Consistent(defined, ParseTokens(defined, st, tokens))
  {
    if tokens != [] {
      ParseConsistent(defined, st, tokens[..|tokens| - 1]);
      StepConsistent(defined, ParseTokens(defined, st, tokens[..|tokens| - 1]), tokens[|tokens| - 1]);
    }
  }

  /** Whether a token, read as a command, names argument `a` (with or without a value). */
  predicate Names(token: string, a: string) {
    Decode(token).Some? && Decode(token).value.name == a
  }

  /** One step lists `a` as loose exactly when it was listed or the token names `a` and `a` is a defined loose argument. */
  lemma StepLoose(defined: map<string, Argument>, st: Store, t: string, a: string)
    requires WellFormed(defined)
    ensures a in Step(defined, st, t).loose <==>
      a in st.loose || (Names(t, a) && a in defined && defined[a].valueType == LooseArgument)
  {
    match Decode(t)
    case None =>
    case Some(c) =>
      if c.name in defined && c.value.Some? {
        var arg := defined[c.name];
        assert arg.name == c.name;
      }
  }

  /** Whether some token of the run names `a`. */
  predicate NamedIn(tokens: seq<string>, a: string) {
    exists k :: 0 <= k < |tokens| && Names(tokens[k], a)
  }

  /** A run with one more token names `a` exactly when the shorter run or the new token does. */
  lemma NamedInStep(tokens: seq<string>, a: string)
    requires tokens != []
    ensures NamedIn(tokens, a) <==> NamedIn(tokens[..|tokens| - 1], a) || Names(tokens[|tokens| - 1], a)
  {
    var n := |tokens| - 1;
    if NamedIn(tokens, a) {
      var k :| 0 <= k < |tokens| && Names(tokens[k], a);
      if k < n {
        assert tokens[..n][k] == tokens[k];
      }
    }
    if NamedIn(tokens[..n], a) {
      var k :| 0 <= k < n && Names(tokens[..n][k], a);
      assert tokens[k] == tokens[..n][k];
    }
  }

  /**
   * After parsing, a name is in the loose list exactly when it is a defined
   * loose argument that some token names, whether or not with a value.
   */
  lemma {:induction false} LooseAfterParse(defined: map<string, Argument>, tokens: seq<string>, a: string)
    requires WellFormed(defined)
    ensures a in ParseTokens(defined, EmptyStore, tokens).loose <==>
      a in defined && defined[a].valueType == LooseArgument && NamedIn(tokens, a)
  {
    if tokens != [] {
      var n := |tokens| - 1;
      LooseAfterParse(defined, tokens[..n], a);
      StepLoose(defined, ParseTokens(defined, EmptyStore, tokens[..n]), tokens[n], a);
      NamedInStep(tokens, a);
    }
  }

  /** The parser: the defined arguments, the values recorded per value type and the loose flags. */
  class CommandLineParser {
    var definedArguments: map<string, Argument>
    var stringValues: map<string, seq<string>>
    var intValues: map<string, seq<int>>
    var doubleValues: map<string, seq<real>>
    var looseArguments: seq<string>

    /** The recorded values as one store. */
    function Values(): Store
      reads this
    {
      Store(stringValues, intValues, doubleValues, looseArguments)
    }

    ghost predicate Valid()
      reads this
    {
      WellFormed(definedArguments) && Consistent(definedArguments, Values())
    }

    /**
     * The constructor: defines the four arguments of the argument table, then
     * parses the command line `args`, whose first element names the executable.
     */
    constructor (args: seq<string>)
      ensures Valid()
      ensures definedArguments == ArgumentTable()
      ensures Values() == ParseArgs(ArgumentTable(), EmptyStore, args)
    {
      definedArguments := map[];
      stringValues := map[];
      intValues := map[];
      doubleValues := map[];
      looseArguments := [];
      new;
      DefineArguments();
      Parse(args);
    }

    /** The constructor's four AddArgument calls, which define the argument table. */
    method DefineArguments()
      requires Valid() && definedArguments == map[]
      modifies `definedArguments
      ensures Valid() && definedArguments == ArgumentTable()
    {
      var _ := AddArgument(ArgumentHelp, Single, LooseArgument, []);
      var _ := AddArgument(ArgumentConfig, Single, StringValue, []);
      var _ := AddArgument(ArgumentRows, Single, IntegerValue, [ArgumentConfig]);
      var _ := AddArgument(ArgumentColumns, Single, IntegerValue, [ArgumentConfig]);
    }

    /**
     * AddArgument: defines an argument under its name; like Dictionary.Add it
     * fails, changing nothing, when the name is already defined.
     */
    method AddArgument(name: string, argType: ArgumentType, valueType: ValueType, ignoreIfPresent: seq<string>)
      returns (outcome: Outcome<ParserError>)
      requires Valid()
      modifies `definedArguments
      ensures Valid()
      ensures outcome.Fail? <==> name in old(definedArguments)
      ensures outcome.Fail? ==> definedArguments == old(definedArguments)
      ensures outcome.Pass? ==>
        definedArguments == old(definedArguments)[name := Argument(name, argType, valueType, ignoreIfPresent)]
    {
      if name in definedArguments {
        return Fail(DuplicateArgument);
      }
      definedArguments := definedArguments[name := Argument(name, argType, valueType, ignoreIfPresent)];
      return Pass;
    }

    /** Parse: reads every element of `args` after the first, in order, as ParseArgs describes. */
    method Parse(args: seq<string>)
      requires Valid()
      modifies this
      ensures Valid()
      ensures definedArguments == old(definedArguments)
      ensures Values() == ParseArgs(definedArguments, old(Values()), args)
    {
      var i := 1;
      while i < |args|
        invariant Valid() && definedArguments == old(definedArguments)
        invariant args == [] ==> i == 1 && Values() == old(Values())
        invariant args != [] ==> 1 <= i <= |args| && Values() == ParseTokens(definedArguments, old(Values()), args[1..i])
      {
        ParseToken(args[i]);
        assert args[1..i + 1][..i - 1] == args[1..i];
        i := i + 1;
      }
      assert args != [] ==> args[1..i] == UserTokens(args);
    }

    /**
     * The body of Parse's loop for one token: a token starting with '-' has
     * its dashes trimmed and is split on '='; a defined name with a value is
     * recorded, and a defined loose name without one is listed once.
     */
    method ParseToken(token: string)
      requires Valid()
      modifies this
      ensures Valid()
      ensures definedArguments == old(definedArguments)
      ensures Values() == Step(definedArguments, old(Values()), token)
    {
      if StartsWith(token, "-") {
        var command := Split(TrimStart(token, '-'), {'='});
        if command[0] in definedArguments {
          var argument := definedArguments[command[0]];
          if |command| > 1 {
            ParseArgument(argument, command[1]);
          } else if argument.valueType == LooseArgument {
            if command[0] !in looseArguments {
              looseArguments := looseArguments + [command[0]];
            }
          }
        }
      }
      StepConsistent(definedArguments, old(Values()), token);
    }

    /** ParseArgument: records one value for a defined argument, as Record describes. */
    method ParseArgument(argument: Argument, value: string)
      requires Valid() && argument.name in definedArguments && definedArguments[argument.name] == argument
      modifies this
      ensures Valid()
      ensures definedArguments == old(definedArguments)
      ensures Values() == Record(argument, old(Values()), value)
    {
      var name := argument.name;
      match argument.valueType
      case StringValue =>
        if name in stringValues {
          if argument.argType != Single {
            stringValues := stringValues[name := stringValues[name] + [value]];
          }
        } else {
          stringValues := stringValues[name := [value]];
        }
      case IntegerValue =>
        var converted := ToInt32(value);
        if converted.Some? {
          if name in intValues {
            if argument.argType != Single {
              intValues := intValues[name := intValues[name] + [converted.value]];
            }
          } else {
            intValues := intValues[name := [converted.value]];
          }
        }
      case DoubleValue =>
      case LooseArgument =>
        if name !in looseArguments {
          looseArguments := looseArguments + [name];
        }
      RecordConsistent(definedArguments, old(Values()), argument, value);
    }

    /**
     * GetValue: NotFound for an undefined argument; TypeMismatch when the
     * requested type is not the argument's value type (always, for a loose
     * argument); otherwise the first value recorded, or NotFound when there is none.
     */
    function GetValue(argument: string, requested: RequestedType): (r: Lookup)
      reads this
      requires Valid()
      ensures argument !in definedArguments ==> r == NotFound
      ensures r == TypeMismatch <==>
        argument in definedArguments && !IsMatchingType(requested, definedArguments[argument].valueType)
      ensures r.Found? <==> (argument in definedArguments && IsMatchingType(requested, definedArguments[argument].valueType)
        && Present(Values(), argument, definedArguments[argument].valueType))
      ensures r.Found? ==> var stored := Stored(Values(), argument, definedArguments[argument].valueType);
        stored != [] && r.value == stored[0]
    {
      if argument !in definedArguments then NotFound
      else
        var valueType := definedArguments[argument].valueType;
        if !IsMatchingType(requested, valueType) then TypeMismatch
        else
          if valueType == StringValue then
            if argument in stringValues then Found(StringVal(stringValues[argument][0])) else NotFound
          else if valueType == IntegerValue then
            if argument in intValues then Found(IntVal(intValues[argument][0])) else NotFound
          else if argument in doubleValues then Found(DoubleVal(doubleValues[argument][0])) else NotFound
    }

    /** HasArgument: the argument is defined and something is recorded for it under its value type. */
    function HasArgument(argument: string): (r: bool)
      reads this
      requires Valid()
      ensures r <==> argument in definedArguments && Present(Values(), argument, definedArguments[argument].valueType)
    {
      argument in definedArguments
      && (argument in looseArguments || argument in stringValues || argument in intValues || argument in doubleValues)
    }
  }

  /**
   * After parsing, HasArgument holds for `a` exactly when `a` is defined and:
   * for a loose argument, some token names it; otherwise some token offers it a value it keeps.
   */
  lemma HasArgumentAfterParse(p: CommandLineParser, args: seq<string>, a: string)
    requires p.Valid() && p.Values() == ParseArgs(p.definedArguments, EmptyStore, args)
    ensures p.HasArgument(a) <==> (a in p.definedArguments &&
      if p.definedArguments[a].valueType == LooseArgument
      then NamedIn(UserTokens(args), a)
      else Contributions(p.definedArguments, UserTokens(args), a) != [])
  {
    if a in p.definedArguments {
      if p.definedArguments[a].valueType == LooseArgument {
        LooseAfterParse(p.definedArguments, UserTokens(args), a);
      } else {
        StoredAfterParse(p.definedArguments, UserTokens(args), a);
      }
    }
  }

  /**
   * After parsing, GetValue gives NotFound for an undefined argument,
   * TypeMismatch for a type the argument does not hold, and otherwise the
   * first value the tokens offered it, or NotFound when none did.
   */
  lemma GetValueAfterParse(p: CommandLineParser, args: seq<string>, a: string, requested: RequestedType)
    requires p.Valid() && p.Values() == ParseArgs(p.definedArguments, EmptyStore, args)
    ensures var offered := Contributions(p.definedArguments, UserTokens(args), a);
      p.GetValue(a, requested) ==
        if a !in p.definedArguments then NotFound
        else if !IsMatchingType(requested, p.definedArguments[a].valueType) then TypeMismatch
        else if offered == [] then NotFound
        else Found(offered[0])
  {
    if a in p.definedArguments && IsMatchingType(requested, p.definedArguments[a].valueType) {
      StoredAfterParse(p.definedArguments, UserTokens(args), a);
    }
  }
}
