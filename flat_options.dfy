// The flat options of the Python package (src/nextroute/options.py): one
// field per engine flag, translated into command-line tokens for the Go
// binary, and filled in from a dictionary. An options object is held as the
// entries of its to_dict result, in field order.
module FlatOptions {
  import opened Wrappers
  import opened PyJson
  import Strings

  type Entries = seq<(string, Value)>

  /** The flags whose value is a number of seconds (src/nextroute/options.py:16-19). */
  const DurationArgs: seq<string> := ["-check.duration", "-solve.duration"]

  /**
   * The fields of Options and their defaults, in declaration order
   * (src/nextroute/options.py:43-134). The two durations are fields of type
   * float and hold their defaults as the floats 30.0 and 5.0, as the nested
   * options do.
   */
  const Defaults: Entries := [
    ("CHECK_DURATION", Float(30, 0)),
    ("CHECK_VERBOSITY", Str("off")),
    ("FORMAT_DISABLE_PROGRESSION", Bool(false)),
    ("MODEL_CONSTRAINTS_DISABLE_ATTRIBUTES", Bool(false)),
    ("MODEL_CONSTRAINTS_DISABLE_CAPACITIES", List([])),
    ("MODEL_CONSTRAINTS_DISABLE_CAPACITY", Bool(false)),
    ("MODEL_CONSTRAINTS_DISABLE_DISTANCELIMIT", Bool(false)),
    ("MODEL_CONSTRAINTS_DISABLE_GROUPS", Bool(false)),
    ("MODEL_CONSTRAINTS_DISABLE_MAXIMUMDURATION", Bool(false)),
    ("MODEL_CONSTRAINTS_DISABLE_MAXIMUMSTOPS", Bool(false)),
    ("MODEL_CONSTRAINTS_DISABLE_MAXIMUMWAITSTOP", Bool(false)),
    ("MODEL_CONSTRAINTS_DISABLE_MAXIMUMWAITVEHICLE", Bool(false)),
    ("MODEL_CONSTRAINTS_DISABLE_MIXINGITEMS", Bool(false)),
    ("MODEL_CONSTRAINTS_DISABLE_PRECEDENCE", Bool(false)),
    ("MODEL_CONSTRAINTS_DISABLE_STARTTIMEWINDOWS", Bool(false)),
    ("MODEL_CONSTRAINTS_DISABLE_VEHICLEENDTIME", Bool(false)),
    ("MODEL_CONSTRAINTS_DISABLE_VEHICLESTARTTIME", Bool(false)),
    ("MODEL_CONSTRAINTS_ENABLE_CLUSTER", Bool(false)),
    ("MODEL_OBJECTIVES_CAPACITIES", Str("")),
    ("MODEL_OBJECTIVES_CLUSTER", Float(0, 0)),
    ("MODEL_OBJECTIVES_EARLYARRIVALPENALTY", Float(1, 0)),
    ("MODEL_OBJECTIVES_LATEARRIVALPENALTY", Float(1, 0)),
    ("MODEL_OBJECTIVES_MINSTOPS", Float(1, 0)),
    ("MODEL_OBJECTIVES_TRAVELDURATION", Float(0, 0)),
    ("MODEL_OBJECTIVES_UNPLANNEDPENALTY", Float(1, 0)),
    ("MODEL_OBJECTIVES_VEHICLEACTIVATIONPENALTY", Float(1, 0)),
    ("MODEL_OBJECTIVES_VEHICLESDURATION", Float(1, 0)),
    ("MODEL_PROPERTIES_DISABLE_DURATIONGROUPS", Bool(false)),
    ("MODEL_PROPERTIES_DISABLE_DURATIONS", Bool(false)),
    ("MODEL_PROPERTIES_DISABLE_INITIALSOLUTION", Bool(false)),
    ("MODEL_PROPERTIES_DISABLE_STOPDURATIONMULTIPLIERS", Bool(false)),
    ("MODEL_VALIDATE_DISABLE_RESOURCES", Bool(false)),
    ("MODEL_VALIDATE_DISABLE_STARTTIME", Bool(false)),
    ("MODEL_VALIDATE_ENABLE_MATRIX", Bool(false)),
    ("MODEL_VALIDATE_ENABLE_MATRIXASYMMETRYTOLERANCE", Int(20)),
    ("SOLVE_DURATION", Float(5, 0)),
    ("SOLVE_ITERATIONS", Int(-1)),
    ("SOLVE_PARALLELRUNS", Int(-1)),
    ("SOLVE_RUNDETERMINISTICALLY", Bool(false)),
    ("SOLVE_STARTSOLUTIONS", Int(-1))
  ]

  /** The default of each field, in field order. */
  function DefaultValues(): (r: seq<Value>)
    ensures |r| == |Defaults|
  {
    seq(|Defaults|, i requires 0 <= i < |Defaults| => Defaults[i].1)
  }

  /**
   * The dict of an Options object: its fields, in declaration order. The
   * default of a key is then the value at the same place in Defaults.
   */
  predicate SameFields(opts: Entries)
  {
    |opts| == |Defaults| && forall i :: 0 <= i < |opts| ==> opts[i].0 == Defaults[i].0
  }

  // ---------------------------------------------------------------------
  // to_args (src/nextroute/options.py:136-181)
  // ---------------------------------------------------------------------

  /** A field name with "_" turned to "." and lower-cased. */
  function Dotted(key: string): string
  {
    Strings.ToLower(Strings.ReplaceChar(key, '_', '.'))
  }

  /** The flag of a field: "-", then the dotted name. */
  function FlagName(key: string): string
  {
    "-" + Dotted(key)
  }

  /** The field a flag names: the inverse of FlagName on upper-case field names. */
  function FieldOfFlag(flag: string): string
    requires |flag| >= 1
  {
    Strings.ToUpper(Strings.ReplaceChar(flag[1..], '.', '_'))
  }

  /** A character a field name is made of: upper-case letters, digits and "_". */
  predicate FieldChar(c: char)
  {
    'A' <= c <= 'Z' || '0' <= c <= '9' || c == '_'
  }

  /** Python's s[1:-1] when s starts and ends with a double quote. */
  function StripQuotes(s: string): string
  {
    if |s| >= 1 && s[0] == '"' && s[|s| - 1] == '"' then
      (if |s| >= 2 then s[1..|s| - 1] else "")
    else s
  }

  /** The value token of a flag: json.dumps, an "s" for a duration, then the outer quotes removed. */
  function ValueText(flag: string, v: Value): string
  {
    StripQuotes(Dumps(v) + (if flag in DurationArgs then "s" else ""))
  }

  /**
   * The tokens of one field: none when it equals its default (Python ==),
   * none for False, the bare flag for True, the flag and its value text
   * otherwise.
   */
  function EntryArgs(key: string, v: Value, default: Value): seq<string>
  {
    if PyEq(v, default) then []
    else if v.Bool? then (if v.b then [FlagName(key)] else [])
    else [FlagName(key), ValueText(FlagName(key), v)]
  }

  /** The tokens of each field, one list per field. */
  function FieldTokens(opts: Entries, defaults: seq<Value>): (r: seq<seq<string>>)
    requires |opts| == |defaults|
    ensures |r| == |opts|
    ensures forall i :: 0 <= i < |opts| ==> r[i] == EntryArgs(opts[i].0, opts[i].1, defaults[i])
  {
    seq(|opts|, i requires 0 <= i < |opts| => EntryArgs(opts[i].0, opts[i].1, defaults[i]))
  }

  /** The tokens of all fields, in field order. */
  function Args(opts: Entries, defaults: seq<Value>): seq<string>
    requires |opts| == |defaults|
  {
    Concat(FieldTokens(opts, defaults))
  }

  /** Lists of tokens one after the other. */
  function Concat<T>(parts: seq<seq<T>>): seq<T>
  {
    if parts == [] then [] else Concat(parts[..|parts| - 1]) + parts[|parts| - 1]
  }

  /** The first i + 1 lists: the first i, then the i-th. */
  lemma ConcatStep<T>(parts: seq<seq<T>>, i: nat)
    requires i < |parts|
    ensures Concat(parts[..i + 1]) == Concat(parts[..i]) + parts[i]
  {
    assert parts[..i + 1][..i] == parts[..i];
  }

  /** Concatenation of two runs of lists is the concatenation of each, in order. */
  lemma {:induction false} ConcatAppend<T>(p: seq<seq<T>>, q: seq<seq<T>>)
    ensures Concat(p + q) == Concat(p) + Concat(q)
    decreases |q|
  {
    if q == [] {
      assert p + q == p;
    } else {
      var n := |q| - 1;
      assert (p + q)[..|p + q| - 1] == p + q[..n];
      ConcatAppend(p, q[..n]);
    }
  }

  /** Empty lists concatenate to nothing. */
  lemma {:induction false} ConcatEmpty<T>(parts: seq<seq<T>>)
    requires forall i :: 0 <= i < |parts| ==> parts[i] == []
    ensures Concat(parts) == []
  {
    if parts != [] {
      ConcatEmpty(parts[..|parts| - 1]);
    }
  }

  /** Options.to_args: the fields against the defaults of Options(). */
  method ToArgs(opts: Entries) returns (args: seq<string>)
    requires SameFields(opts)
    ensures args == Args(opts, DefaultValues())
  {
    args := FieldArgs(opts, DefaultValues());
  }

  /** The loop of to_args, each field against its default. */
  method FieldArgs(opts: Entries, defaults: seq<Value>) returns (args: seq<string>)
    requires |opts| == |defaults|
    ensures args == Args(opts, defaults)
  {
    ghost var parts := FieldTokens(opts, defaults);
    args := [];
    for i := 0 to |opts|
      invariant args == Concat(parts[..i])
    {
      ConcatStep(parts, i);
      var (key, value) := opts[i];
      if PyEq(value, defaults[i]) {
        continue;
      }
      var flag := FlagName(key);
      var text := ValueText(flag, value);
      if value.Bool? {
        if !value.b {
          continue;
        }
        args := args + [flag];
      } else {
        args := args + [flag, text];
      }
    }
    assert parts[..|opts|] == parts;
  }

  /** A field is left out exactly when it equals its default or is False. */
  lemma EntrySkipped(key: string, v: Value, default: Value)
    ensures EntryArgs(key, v, default) == [] <==> PyEq(v, default) || v == Bool(false)
  {
  }

  /**
   * A field that is written starts with its flag; True adds nothing after
   * the flag, any other value exactly one token.
   */
  lemma EntryTokens(key: string, v: Value, default: Value)
    requires EntryArgs(key, v, default) != []
    ensures EntryArgs(key, v, default)[0] == FlagName(key)
    ensures |EntryArgs(key, v, default)| == (if v == Bool(true) then 1 else 2)
  {
  }

  /** The tokens of two runs of fields are those of each, in order. */
  lemma ArgsAppend(a: Entries, b: Entries, da: seq<Value>, db: seq<Value>)
    requires |a| == |da| && |b| == |db|
    ensures Args(a + b, da + db) == Args(a, da) + Args(b, db)
  {
    var p, q := FieldTokens(a, da), FieldTokens(b, db);
    FieldTokensAppend(a, b, da, db);
    ConcatAppend(p, q);
  }

  /** The token lists of two runs of fields are those of each, in order. */
  lemma FieldTokensAppend(a: Entries, b: Entries, da: seq<Value>, db: seq<Value>)
    requires |a| == |da| && |b| == |db|
    ensures FieldTokens(a + b, da + db) == FieldTokens(a, da) + FieldTokens(b, db)
  {
    var ab, dab := a + b, da + db;
    var p, q, pq := FieldTokens(a, da), FieldTokens(b, db), FieldTokens(ab, dab);
    forall i | 0 <= i < |pq| ensures pq[i] == (p + q)[i] {
      if i < |a| {
        assert ab[i] == a[i] && dab[i] == da[i];
      } else {
        var k := i - |a|;
        assert ab[i] == b[k] && dab[i] == db[k];
        assert (p + q)[i] == q[k];
      }
    }
  }

  /** Fields that all equal their defaults give no tokens. */
  lemma AllDefaultsNoArgs(opts: Entries, defaults: seq<Value>)
    requires |opts| == |defaults|
    requires forall i :: 0 <= i < |opts| ==> PyEq(opts[i].1, defaults[i])
    ensures Args(opts, defaults) == []
  {
    ConcatEmpty(FieldTokens(opts, defaults));
  }

  /** A flag turns back into its field's name when that name is upper-case letters, digits and "_". */
  lemma FlagNameRoundTrip(key: string)
    requires forall i :: 0 <= i < |key| ==> FieldChar(key[i])
    ensures FieldOfFlag(FlagName(key)) == key
  {
    var flag := FlagName(key);
    var dotted := Dotted(key);
    assert flag[1..] == dotted;
    var undotted := Strings.ReplaceChar(dotted, '.', '_');
    var back := Strings.ToUpper(undotted);
    assert |back| == |key|;
    forall i | 0 <= i < |key|
      ensures back[i] == key[i]
    {
      FieldCharRoundTrip(key[i]);
      assert back[i] == Strings.UpperChar(undotted[i]);
    }
  }

  /** Each character of a field name survives the way to its flag and back. */
  lemma FieldCharRoundTrip(c: char)
    requires FieldChar(c)
    ensures var d := Strings.LowerChar(if c == '_' then '.' else c);
      Strings.UpperChar(if d == '.' then '_' else d) == c
  {
  }

  /** A duration's value is its number text with "s" after it, never stripped. */
  lemma DurationText(flag: string, v: Value)
    requires flag in DurationArgs && v.Float?
    ensures ValueText(flag, v) == FloatText(v.digits, v.scale) + "s"
  {
  }

  /** Any other string value is written without its quotes. */
  lemma StringText(flag: string, s: string)
    requires flag !in DurationArgs
    ensures ValueText(flag, Str(s)) == Escape(s)
  {
    var d := Dumps(Str(s));
    assert d[1..|d| - 1] == Escape(s);
  }

  // ---------------------------------------------------------------------
  // extract_from_dict (src/nextroute/options.py:183-212)
  // ---------------------------------------------------------------------

  datatype OptionsError = InvalidVerbosity(value: Value)

  /** Verbosity(value): one of the four names of the enum (src/nextroute/options.py:27-37). */
  predicate IsVerbosity(v: Value)
  {
    v.Str? && v.s in ["off", "low", "medium", "high"]
  }

  /** hasattr(options, key) for a data field. */
  predicate HasField(opts: Entries, key: string)
  {
    exists i :: 0 <= i < |opts| && opts[i].0 == key
  }

  /** setattr(options, key, value). */
  function SetField(opts: Entries, key: string, v: Value): (r: Entries)
    ensures |r| == |opts|
    ensures forall i :: 0 <= i < |opts| ==> r[i] == (if opts[i].0 == key then (key, v) else opts[i])
  {
    seq(|opts|, i requires 0 <= i < |opts| => if opts[i].0 == key then (key, v) else opts[i])
  }

  /** One dictionary entry: unknown keys are passed over, a bad verbosity is a ValueError. */
  function ExtractStep(opts: Entries, key: string, v: Value): Result<Entries, OptionsError>
  {
    var field := Strings.ToUpper(key);
    if !HasField(opts, field) then Ok(opts)
    else if field == "CHECK_VERBOSITY" && !IsVerbosity(v) then Err(InvalidVerbosity(v))
    else Ok(SetField(opts, field, v))
  }

  /** The options after the entries of data, in order, or the first error. */
  function Extracted(opts: Entries, data: Entries): Result<Entries, OptionsError>
  {
    if data == [] then Ok(opts)
    else
      var last := data[|data| - 1];
      match Extracted(opts, data[..|data| - 1])
      case Err(e) => Err(e)
      case Ok(o) => ExtractStep(o, last.0, last.1)
  }

  /** An error stops the extraction: later entries do not change it. */
  lemma {:induction false} ExtractedErrorStays(opts: Entries, data: Entries, k: nat)
    requires k <= |data| && Extracted(opts, data[..k]).Err?
    ensures Extracted(opts, data) == Extracted(opts, data[..k])
    decreases |data|
  {
    if k < |data| {
      var init := data[..|data| - 1];
      assert init[..k] == data[..k];
      ExtractedErrorStays(opts, init, k);
    } else {
      assert data[..k] == data;
    }
  }

  /** Options.extract_from_dict: start from the defaults, apply each entry. */
  method ExtractFromDict(data: Entries) returns (r: Result<Entries, OptionsError>)
    ensures r == Extracted(Defaults, data)
  {
    var opts := Defaults;
    for i := 0 to |data|
      invariant Extracted(Defaults, data[..i]) == Ok(opts)
    {
      assert data[..i + 1][..i] == data[..i];
      var (key, value) := data[i];
      var field := Strings.ToUpper(key);
      if !HasField(opts, field) {
        continue;
      }
      if field == "CHECK_VERBOSITY" && !IsVerbosity(value) {
        ExtractedErrorStays(Defaults, data, i + 1);
        return Err(InvalidVerbosity(value));
      }
      opts := SetField(opts, field, value);
    }
    assert data[..|data|] == data;
    return Ok(opts);
  }

  /** The value the last entry whose upper-cased key is field gives, if any. */
  function LastFor(data: Entries, field: string): Option<Value>
  {
    if data == [] then None
    else if Strings.ToUpper(data[|data| - 1].0) == field then Some(data[|data| - 1].1)
    else LastFor(data[..|data| - 1], field)
  }

  /**
   * Extracting keeps the fields and their order; a field takes the value
   * of the last entry naming it in any case, and keeps its value when no
   * entry names it.
   */
  lemma {:induction false} ExtractedValues(opts: Entries, data: Entries)
    requires Extracted(opts, data).Ok?
    ensures var o := Extracted(opts, data).value;
      |o| == |opts| &&
      forall i :: 0 <= i < |opts| ==>
        o[i].0 == opts[i].0 &&
        o[i].1 == match LastFor(data, opts[i].0) case Some(v) => v case None => opts[i].1
  {
    if data != [] {
      var init := data[..|data| - 1];
      ExtractedValues(opts, init);
      var o := Extracted(opts, init).value;
      var last := data[|data| - 1];
      var field := Strings.ToUpper(last.0);
      if HasField(o, field) {
        assert forall i :: 0 <= i < |o| && o[i].0 == field ==> opts[i].0 == field;
      } else {
        forall i | 0 <= i < |opts|
          ensures opts[i].0 != field
        {
          assert o[i].0 == opts[i].0;
        }
      }
    }
  }

  /** Extracting keeps the field names, so a field of opts stays a field. */
  lemma {:induction false} ExtractedKeepsFields(opts: Entries, data: Entries, field: string)
    requires HasField(opts, field)
    ensures Extracted(opts, data).Ok? ==> HasField(Extracted(opts, data).value, field)
  {
    if Extracted(opts, data).Ok? {
      ExtractedValues(opts, data);
      var i :| 0 <= i < |opts| && opts[i].0 == field;
      assert Extracted(opts, data).value[i].0 == field;
    }
  }

  /** An entry naming the verbosity with a value that is not one. */
  predicate BadVerbosity(e: (string, Value))
  {
    Strings.ToUpper(e.0) == "CHECK_VERBOSITY" && !IsVerbosity(e.1)
  }

  /** Some entry of data names the verbosity with a bad value. */
  predicate AnyBadVerbosity(data: Entries)
  {
    exists j :: 0 <= j < |data| && BadVerbosity(data[j])
  }

  /** A bad verbosity entry is in data exactly when it is in all but the last entry, or is the last. */
  lemma BadVerbositySplit(data: Entries)
    requires data != []
    ensures AnyBadVerbosity(data) <==> AnyBadVerbosity(data[..|data| - 1]) || BadVerbosity(data[|data| - 1])
  {
    var init := data[..|data| - 1];
    if exists j :: 0 <= j < |data| && BadVerbosity(data[j]) {
      var j :| 0 <= j < |data| && BadVerbosity(data[j]);
      if j < |init| {
        assert init[j] == data[j];
      }
    }
    if exists j :: 0 <= j < |init| && BadVerbosity(init[j]) {
      var j :| 0 <= j < |init| && BadVerbosity(init[j]);
      assert data[j] == init[j];
    }
  }

  /** Extracting fails exactly when an entry names the verbosity with a value that is not one. */
  lemma {:induction false} ExtractedFails(opts: Entries, data: Entries)
    requires HasField(opts, "CHECK_VERBOSITY")
    ensures Extracted(opts, data).Err? <==> AnyBadVerbosity(data)
  {
    if data != [] {
      var init := data[..|data| - 1];
      ExtractedFails(opts, init);
      ExtractedKeepsFields(opts, init, "CHECK_VERBOSITY");
      BadVerbositySplit(data);
    }
  }

  // ---------------------------------------------------------------------
  // Scenarios (src/tests/test_options.py:56-83)
  // ---------------------------------------------------------------------

  /** Options() gives no tokens. */
  lemma DefaultOptionsNoArgs()
    ensures Args(Defaults, DefaultValues()) == []
  {
    forall i | 0 <= i < |Defaults|
      ensures PyEq(Defaults[i].1, DefaultValues()[i])
    {
      PyEqReflexive(Defaults[i].1);
    }
    AllDefaultsNoArgs(Defaults, DefaultValues());
  }

  /** Strictly increasing positions below n. */
  predicate Positions(ks: seq<nat>, n: nat)
  {
    (forall j :: 0 <= j < |ks| ==> ks[j] < n) &&
    (forall j, l :: 0 <= j < l < |ks| ==> ks[j] < ks[l])
  }

  /** The lists at the positions ks, in that order. */
  function Pick<T>(parts: seq<seq<T>>, ks: seq<nat>): seq<T>
    requires forall j :: 0 <= j < |ks| ==> ks[j] < |parts|
  {
    if ks == [] then [] else Pick(parts, ks[..|ks| - 1]) + parts[ks[|ks| - 1]]
  }

  /** Pick only reads the lists it picks, so a longer run of lists picks the same ones. */
  lemma {:induction false} PickPrefix<T>(parts: seq<seq<T>>, ks: seq<nat>, n: nat)
    requires n <= |parts| && forall j :: 0 <= j < |ks| ==> ks[j] < n
    ensures Pick(parts[..n], ks) == Pick(parts, ks)
  {
    if ks != [] {
      PickPrefix(parts, ks[..|ks| - 1], n);
    }
  }

  /** When every list outside the positions ks is empty, concatenating all is picking those at ks. */
  lemma {:induction false} ConcatPicked<T>(parts: seq<seq<T>>, ks: seq<nat>)
    requires Positions(ks, |parts|)
    requires forall i :: 0 <= i < |parts| && i !in ks ==> parts[i] == []
    ensures Concat(parts) == Pick(parts, ks)
    decreases |parts|
  {
    if parts != [] {
      var n := |parts| - 1;
      var init := parts[..n];
      if ks != [] && ks[|ks| - 1] == n {
        var front := ks[..|ks| - 1];
        assert Positions(front, n);
        forall i | 0 <= i < n && i !in front
          ensures init[i] == []
        {
          assert i !in ks;
        }
        ConcatPicked(init, front);
        PickPrefix(parts, front, n);
      } else {
        assert n !in ks;
        assert Positions(ks, n);
        ConcatPicked(init, ks);
        PickPrefix(parts, ks, n);
      }
    }
  }

  /**
   * Only the fields that differ from their defaults give tokens: when
   * every field outside ks equals its default, the tokens are those of
   * the fields at ks, in field order.
   */
  lemma ArgsPicked(opts: Entries, defaults: seq<Value>, ks: seq<nat>)
    requires |opts| == |defaults| && Positions(ks, |opts|)
    requires forall i :: 0 <= i < |opts| && i !in ks ==> PyEq(opts[i].1, defaults[i])
    ensures Args(opts, defaults) == Pick(FieldTokens(opts, defaults), ks)
  {
    ConcatPicked(FieldTokens(opts, defaults), ks);
  }

  /** A flag is read off character by character. */
  lemma FlagNameIs(key: string, flag: string)
    requires |flag| == |key| + 1 && flag[0] == '-'
    requires forall i :: 0 <= i < |key| ==> flag[i + 1] == Strings.LowerChar(if key[i] == '_' then '.' else key[i])
    ensures FlagName(key) == flag
  {
    assert FlagName(key)[1..] == flag[1..];
  }

  /** A changed value that is not a bool gives its flag and its value text. */
  lemma ValueEntry(key: string, flag: string, v: Value, default: Value)
    requires FlagName(key) == flag && !PyEq(v, default) && !v.Bool?
    ensures EntryArgs(key, v, default) == [flag, ValueText(flag, v)]
  {
  }

  /** True, when the default is not, gives the bare flag. */
  lemma TrueEntry(key: string, flag: string, default: Value)
    requires FlagName(key) == flag && !PyEq(Bool(true), default)
    ensures EntryArgs(key, Bool(true), default) == [flag]
  {
  }

  /** CHECK_DURATION=4: a changed duration gives the flag and "4.0s". */
  lemma ScenarioCheckDuration(key: string)
    requires key == "CHECK_DURATION"
    ensures EntryArgs(key, Float(4, 0), Float(30, 0)) == ["-check.duration", "4.0s"]
  {
    FlagNameIs(key, "-check.duration");
    ValueEntry(key, "-check.duration", Float(4, 0), Float(30, 0));
    DurationText("-check.duration", Float(4, 0));
    FloatTextWhole(4);
    assert ValueText("-check.duration", Float(4, 0)) == "4.0s";
  }

  /** CHECK_VERBOSITY=medium: the string is written without quotes. */
  lemma ScenarioVerbosity(key: string, level: string)
    requires key == "CHECK_VERBOSITY" && level == "medium"
    ensures EntryArgs(key, Str(level), Str("off")) == ["-check.verbosity", "medium"]
  {
    FlagNameIs(key, "-check.verbosity");
    MediumNotOff(level);
    ValueEntry(key, "-check.verbosity", Str(level), Str("off"));
    VerbosityNotDuration();
    StringText("-check.verbosity", level);
    MediumPlain(level);
    EscapePlain(level);
  }

  lemma MediumNotOff(level: string)
    requires level == "medium"
    ensures !PyEq(Str(level), Str("off"))
  {
    assert level[0] != "off"[0];
  }

  lemma VerbosityNotDuration()
    ensures "-check.verbosity" !in DurationArgs
  {
    assert "-check.verbosity"[7] != "-check.duration"[7];
    assert "-check.verbosity"[1] != "-solve.duration"[1];
  }

  lemma MediumPlain(level: string)
    requires level == "medium"
    ensures forall i :: 0 <= i < |level| ==> Plain(level[i])
  {
  }

  /** A dotted name is read off character by character. */
  lemma DottedIs(key: string, dotted: string)
    requires |dotted| == |key|
    requires forall i :: 0 <= i < |key| ==> dotted[i] == Strings.LowerChar(if key[i] == '_' then '.' else key[i])
    ensures Dotted(key) == dotted
  {
  }

  /** Dotting works piece by piece. */
  lemma DottedAppend(a: string, b: string)
    ensures Dotted(a + b) == Dotted(a) + Dotted(b)
  {
    var ab := a + b;
    assert forall i :: 0 <= i < |a| ==> ab[i] == a[i];
    assert forall i :: |a| <= i < |ab| ==> ab[i] == b[i - |a|];
  }

  /** The two halves of the attributes flag joined. */
  lemma AttributesFlag()
    ensures "-" + ("model.constraints." + "disable.attributes") == "-model.constraints.disable.attributes"
  {
  }

  /** The dotted name of MODEL_CONSTRAINTS_DISABLE_ATTRIBUTES, read in two halves. */
  lemma AttributesDotted(front: string, back: string)
    requires front == "MODEL_CONSTRAINTS_" && back == "DISABLE_ATTRIBUTES"
    ensures Dotted(front + back) == "model.constraints." + "disable.attributes"
  {
    DottedIs(front, "model.constraints.");
    DottedIs(back, "disable.attributes");
    DottedAppend(front, back);
  }

  /** The two halves of the attributes field joined. */
  lemma AttributesKey()
    ensures "MODEL_CONSTRAINTS_" + "DISABLE_ATTRIBUTES" == "MODEL_CONSTRAINTS_DISABLE_ATTRIBUTES"
  {
  }

  /** MODEL_CONSTRAINTS_DISABLE_ATTRIBUTES=True: a bare flag. */
  lemma ScenarioAttributes(key: string)
    requires key == "MODEL_CONSTRAINTS_DISABLE_ATTRIBUTES"
    ensures EntryArgs(key, Bool(true), Bool(false)) == ["-model.constraints.disable.attributes"]
  {
    AttributesKey();
    AttributesDotted("MODEL_CONSTRAINTS_", "DISABLE_ATTRIBUTES");
    AttributesFlag();
    TrueEntry(key, "-model.constraints.disable.attributes", Bool(false));
  }

  /** SOLVE_DURATION=4: as for the check duration. */
  lemma ScenarioSolveDuration(key: string)
    requires key == "SOLVE_DURATION"
    ensures EntryArgs(key, Float(4, 0), Float(5, 0)) == ["-solve.duration", "4.0s"]
  {
    FlagNameIs(key, "-solve.duration");
    ValueEntry(key, "-solve.duration", Float(4, 0), Float(5, 0));
    DurationText("-solve.duration", Float(4, 0));
    FloatTextWhole(4);
    assert ValueText("-solve.duration", Float(4, 0)) == "4.0s";
  }

  /** The field names and defaults at the places the scenario changes. */
  lemma {:induction false} ScenarioFields(opts: Entries)
    requires SameFields(opts)
    ensures opts[0].0 == "CHECK_DURATION" && opts[1].0 == "CHECK_VERBOSITY"
    ensures opts[3].0 == "MODEL_CONSTRAINTS_DISABLE_ATTRIBUTES" && opts[35].0 == "SOLVE_DURATION"
    ensures DefaultValues()[0] == Float(30, 0) && DefaultValues()[1] == Str("off")
    ensures DefaultValues()[3] == Bool(false) && DefaultValues()[35] == Float(5, 0)
  {
  }

  /** With the fields outside 0, 1, 3 and 35 at their defaults, only those four give tokens. */
  lemma ScenarioPicked(opts: Entries, d: seq<Value>)
    requires |opts| == |d| == |Defaults|
    requires forall i :: 0 <= i < |opts| && i !in {0, 1, 3, 35} ==> PyEq(opts[i].1, d[i])
    ensures Args(opts, d) ==
      EntryArgs(opts[0].0, opts[0].1, d[0]) + EntryArgs(opts[1].0, opts[1].1, d[1]) +
      EntryArgs(opts[3].0, opts[3].1, d[3]) + EntryArgs(opts[35].0, opts[35].1, d[35])
  {
    var ks: seq<nat> := [0, 1, 3, 35];
    var parts := FieldTokens(opts, d);
    assert Positions(ks, |opts|);
    forall i | 0 <= i < |opts| && i !in ks
      ensures PyEq(opts[i].1, d[i])
    {
      assert i !in {0, 1, 3, 35};
    }
    ArgsPicked(opts, d, ks);
    PickFour(parts, ks);
  }

  /** Four picked lists, one after the other. */
  lemma PickFour<T>(parts: seq<seq<T>>, ks: seq<nat>)
    requires |ks| == 4 && Positions(ks, |parts|)
    ensures Pick(parts, ks) == parts[ks[0]] + parts[ks[1]] + parts[ks[2]] + parts[ks[3]]
  {
    var k1, k2, k3 := ks[..1], ks[..2], ks[..3];
    assert k3[..2] == k2 && k2[..1] == k1 && k1[..0] == [];
    assert Pick(parts, k1) == parts[ks[0]];
    assert Pick(parts, k2) == parts[ks[0]] + parts[ks[1]];
    assert Pick(parts, k3) == parts[ks[0]] + parts[ks[1]] + parts[ks[2]];
    assert ks[..3] == k3;
  }

  /**
   * The scenario's options: durations of 4 seconds, medium verbosity and
   * attributes off; every other field, the iterations and the matrix
   * validation among them, holds a value equal to its default. The fields
   * set to their defaults give nothing; the others give their tokens in
   * field order.
   */
  lemma {:induction false} ScenarioArgs(opts: Entries)
    requires SameFields(opts)
    requires opts[0].1 == Float(4, 0) && opts[1].1 == Str("medium")
    requires opts[3].1 == Bool(true) && opts[35].1 == Float(4, 0)
    requires forall i :: 0 <= i < |opts| && i !in {0, 1, 3, 35} ==> PyEq(opts[i].1, DefaultValues()[i])
    ensures Args(opts, DefaultValues()) ==
      ["-check.duration", "4.0s"] + ["-check.verbosity", "medium"] +
      ["-model.constraints.disable.attributes"] + ["-solve.duration", "4.0s"]
  {
    ScenarioPicked(opts, DefaultValues());
    ScenarioFields(opts);
    ScenarioCheckDuration(opts[0].0);
    ScenarioVerbosity(opts[1].0, opts[1].1.s);
    ScenarioAttributes(opts[3].0);
    ScenarioSolveDuration(opts[35].0);
  }
}
