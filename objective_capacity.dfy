// The capacity objective option (factory/objective_capacity.go): a string of
// triples `name=<resource>;factor=<float>;offset=<float>` separated by `;`.
// Go's strconv.ParseFloat is not part of this model; it is the parameter
// `parseFloat`, which gives the value of a float text or none.
module ObjectiveCapacity {
  import opened Wrappers
  import opened Strings

  datatype CapacityObjective = CapacityObjective(name: string, factor: real, offset: real)

  datatype CapacityError =
    | NotTriplets(tokens: nat)
    | BadNameDefinition(definition: string)
    | BadFactorDefinition(definition: string, name: string)
    | FactorNotFloat(text: string, name: string)
    | BadOffsetDefinition(definition: string, name: string)
    | OffsetNotFloat(text: string, name: string)

  /** The value of `key=<value>`: the token must split on `=` into exactly that key and one value. */
  function Definition(token: string, key: string): (r: Option<string>)
    ensures r.Some? <==> |Split(token, '=')| == 2 && Split(token, '=')[0] == key
    ensures r.Some? ==> token == key + "=" + r.value
  {
    var parts := Split(token, '=');
    if |parts| == 2 && parts[0] == key then
      JoinSplit(token, '=');
      Some(parts[1])
    else None
  }

  /** One triple (factory/objective_capacity.go:49-104), its checks in the order of the source. */
  function ParseTriple(nameDef: string, factorDef: string, offsetDef: string, parseFloat: string -> Option<real>):
    Result<CapacityObjective, CapacityError>
  {
    match Definition(nameDef, "name")
    case None => Err(BadNameDefinition(nameDef))
    case Some(name) =>
      match Definition(factorDef, "factor")
      case None => Err(BadFactorDefinition(factorDef, name))
      case Some(factorText) =>
        match parseFloat(factorText)
        case None => Err(FactorNotFloat(factorText, name))
        case Some(factor) =>
          match Definition(offsetDef, "offset")
          case None => Err(BadOffsetDefinition(offsetDef, name))
          case Some(offsetText) =>
            match parseFloat(offsetText)
            case None => Err(OffsetNotFloat(offsetText, name))
            case Some(offset) => Ok(CapacityObjective(name, factor, offset))
  }

  /** The results of the first k triples, in order; the first failing triple decides the error. */
  function Collect(triples: seq<Result<CapacityObjective, CapacityError>>, k: nat): Result<seq<CapacityObjective>, CapacityError>
    requires k <= |triples|
  {
    if k == 0 then Ok([])
    else
      match Collect(triples, k - 1)
      case Err(e) => Err(e)
      case Ok(prefix) =>
        match triples[k - 1]
        case Err(e) => Err(e)
        case Ok(objective) => Ok(prefix + [objective])
  }

  /** Three tokens per triple: the i-th triple is made of tokens 3i, 3i+1 and 3i+2. */
  lemma ThirdBound(i: nat, n: nat)
    requires i < n / 3
    ensures 3 * i + 2 < n
  {
  }

  /** The result of every whole triple of a token list. */
  function Triples(tokens: seq<string>, parseFloat: string -> Option<real>): (r: seq<Result<CapacityObjective, CapacityError>>)
    ensures |r| == |tokens| / 3
    ensures forall i :: 0 <= i < |r| ==> 3 * i + 2 < |tokens| && r[i] == TripleAt(tokens, i, parseFloat)
  {
    seq(|tokens| / 3, i requires 0 <= i < |tokens| / 3 => ThirdBound(i, |tokens|); TripleAt(tokens, i, parseFloat))
  }

  /** parseCapacityObjectives (factory/objective_capacity.go:30-107). */
  function CapacityObjectives(capacities: string, parseFloat: string -> Option<real>): Result<seq<CapacityObjective>, CapacityError>
  {
    if capacities == "" then Ok([])
    else
      var tokens := Split(capacities, ';');
      if |tokens| % 3 != 0 then Err(NotTriplets(|tokens|))
      else Collect(Triples(tokens, parseFloat), |tokens| / 3)
  }

  /** A success of the first k triples holds one objective per triple, each the value of its own triple. */
  lemma {:induction false} CollectValues(triples: seq<Result<CapacityObjective, CapacityError>>, k: nat)
    requires k <= |triples| && Collect(triples, k).Ok?
    ensures var r := Collect(triples, k).value;
      |r| == k && forall i :: 0 <= i < k ==> Ok(r[i]) == triples[i]
  {
    if k > 0 {
      CollectValues(triples, k - 1);
      var prefix := Collect(triples, k - 1).value;
      assert Collect(triples, k).value == prefix + [triples[k - 1].value];
    }
  }

  /** The first k triples parse exactly when each of them does. */
  lemma {:induction false} CollectOk(triples: seq<Result<CapacityObjective, CapacityError>>, k: nat)
    requires k <= |triples|
    ensures Collect(triples, k).Ok? <==> forall i :: 0 <= i < k ==> triples[i].Ok?
  {
    if k > 0 {
      CollectOk(triples, k - 1);
    }
  }

  /** When the first k triples each give their objective, they give them all, in order. */
  lemma {:induction false} CollectAll(triples: seq<Result<CapacityObjective, CapacityError>>, objectives: seq<CapacityObjective>, k: nat)
    requires k <= |triples| && k <= |objectives|
    requires forall i :: 0 <= i < k ==> triples[i] == Ok(objectives[i])
    ensures Collect(triples, k) == Ok(objectives[..k])
  {
    if k > 0 {
      CollectAll(triples, objectives, k - 1);
      assert objectives[..k - 1] + [objectives[k - 1]] == objectives[..k];
    }
  }

  /** The triple at position i of a token list. */
  function TripleAt(tokens: seq<string>, i: nat, parseFloat: string -> Option<real>): Result<CapacityObjective, CapacityError>
    requires 3 * i + 2 < |tokens|
  {
    ParseTriple(tokens[3 * i], tokens[3 * i + 1], tokens[3 * i + 2], parseFloat)
  }

  /** An empty string is no objective, and a token count that is not a multiple of three is refused. */
  lemma CapacityObjectivesShape(capacities: string, parseFloat: string -> Option<real>)
    ensures capacities == "" ==> CapacityObjectives(capacities, parseFloat) == Ok([])
    ensures capacities != "" && |Split(capacities, ';')| % 3 != 0 ==>
      CapacityObjectives(capacities, parseFloat) == Err(NotTriplets(|Split(capacities, ';')|))
    ensures CapacityObjectives(capacities, parseFloat).Ok? && capacities != "" ==>
      |CapacityObjectives(capacities, parseFloat).value| == |Split(capacities, ';')| / 3
  {
    if capacities != "" && |Split(capacities, ';')| % 3 == 0 {
      var triples := Triples(Split(capacities, ';'), parseFloat);
      if Collect(triples, |triples|).Ok? {
        CollectValues(triples, |triples|);
      }
    }
  }

  /** The option text of objectives, given the text of each factor and offset. */
  function Tokens(objectives: seq<CapacityObjective>, factorTexts: seq<string>, offsetTexts: seq<string>): (r: seq<string>)
    requires |factorTexts| == |objectives| && |offsetTexts| == |objectives|
    ensures |r| == 3 * |objectives|
    ensures forall i :: 0 <= i < |objectives| ==>
      r[3 * i] == "name=" + objectives[i].name && r[3 * i + 1] == "factor=" + factorTexts[i] &&
      r[3 * i + 2] == "offset=" + offsetTexts[i]
  {
    if objectives == [] then []
    else
      ["name=" + objectives[0].name, "factor=" + factorTexts[0], "offset=" + offsetTexts[0]] +
      Tokens(objectives[1..], factorTexts[1..], offsetTexts[1..])
  }

  /** A name or float text that can stand in a triple: no `;` and no `=`. */
  predicate Plain(s: string)
  {
    ';' !in s && '=' !in s
  }

  lemma DefinitionOf(key: string, value: string)
    requires Plain(key) && Plain(value)
    ensures Definition(key + "=" + value, key) == Some(value)
  {
    SplitJoin([key, value], '=');
    assert Join([key, value], '=') == key + "=" + value by {
      assert Join([value], '=') == value;
    }
  }

  /** The objectives written as triples, with each factor and offset text parsing to its value. */
  predicate Written(objectives: seq<CapacityObjective>, factorTexts: seq<string>, offsetTexts: seq<string>,
                    parseFloat: string -> Option<real>)
  {
    |factorTexts| == |objectives| && |offsetTexts| == |objectives| &&
    forall i :: 0 <= i < |objectives| ==>
      Plain(objectives[i].name) && Plain(factorTexts[i]) && Plain(offsetTexts[i]) &&
      parseFloat(factorTexts[i]) == Some(objectives[i].factor) && parseFloat(offsetTexts[i]) == Some(objectives[i].offset)
  }

  /** A triple written from plain texts parses back to its objective. */
  lemma TripleOf(objective: CapacityObjective, factorText: string, offsetText: string, parseFloat: string -> Option<real>)
    requires Plain(objective.name) && Plain(factorText) && Plain(offsetText)
    requires parseFloat(factorText) == Some(objective.factor) && parseFloat(offsetText) == Some(objective.offset)
    ensures ParseTriple("name=" + objective.name, "factor=" + factorText, "offset=" + offsetText, parseFloat) == Ok(objective)
  {
    DefinitionOf("name", objective.name);
    DefinitionOf("factor", factorText);
    DefinitionOf("offset", offsetText);
    assert "name=" + objective.name == "name" + "=" + objective.name;
    assert "factor=" + factorText == "factor" + "=" + factorText;
    assert "offset=" + offsetText == "offset" + "=" + offsetText;
    var name := objective.name;
    assert objective == CapacityObjective(name, objective.factor, objective.offset);
  }

  lemma TripleRoundTrip(objectives: seq<CapacityObjective>, factorTexts: seq<string>, offsetTexts: seq<string>,
                        parseFloat: string -> Option<real>, i: nat)
    requires Written(objectives, factorTexts, offsetTexts, parseFloat) && i < |objectives|
    ensures TripleAt(Tokens(objectives, factorTexts, offsetTexts), i, parseFloat) == Ok(objectives[i])
  {
    var tokens := Tokens(objectives, factorTexts, offsetTexts);
    assert tokens[3 * i] == "name=" + objectives[i].name;
    assert tokens[3 * i + 1] == "factor=" + factorTexts[i];
    assert tokens[3 * i + 2] == "offset=" + offsetTexts[i];
    TripleOf(objectives[i], factorTexts[i], offsetTexts[i], parseFloat);
  }

  /**
   * Writing objectives out as triples and parsing them gives them back,
   * when the names and float texts hold no separator and every float text
   * parses to its value.
   */
  lemma TokensRoundTrip(objectives: seq<CapacityObjective>, factorTexts: seq<string>, offsetTexts: seq<string>,
                        parseFloat: string -> Option<real>)
    requires Written(objectives, factorTexts, offsetTexts, parseFloat)
    ensures var tokens := Tokens(objectives, factorTexts, offsetTexts);
      Collect(Triples(tokens, parseFloat), |objectives|) == Ok(objectives)
  {
    var tokens := Tokens(objectives, factorTexts, offsetTexts);
    var triples := Triples(tokens, parseFloat);
    Thirds(|objectives|);
    forall i | 0 <= i < |objectives| ensures triples[i] == Ok(objectives[i]) {
      TripleRoundTrip(objectives, factorTexts, offsetTexts, parseFloat, i);
    }
    CollectAll(triples, objectives, |objectives|);
    assert objectives[..|objectives|] == objectives;
  }

  /** The separators never occur inside a written token. */
  lemma TokensPlain(objectives: seq<CapacityObjective>, factorTexts: seq<string>, offsetTexts: seq<string>,
                    parseFloat: string -> Option<real>)
    requires Written(objectives, factorTexts, offsetTexts, parseFloat)
    ensures forall j :: 0 <= j < |Tokens(objectives, factorTexts, offsetTexts)| ==> ';' !in Tokens(objectives, factorTexts, offsetTexts)[j]
  {
    var tokens := Tokens(objectives, factorTexts, offsetTexts);
    forall j | 0 <= j < |tokens| ensures ';' !in tokens[j] {
      var i := j / 3;
      assert j == 3 * i || j == 3 * i + 1 || j == 3 * i + 2;
    }
  }

  /** Writing objectives out as an option string and parsing it gives them back. */
  lemma CapacityObjectivesRoundTrip(objectives: seq<CapacityObjective>, factorTexts: seq<string>, offsetTexts: seq<string>,
                                    parseFloat: string -> Option<real>)
    requires |objectives| > 0 && Written(objectives, factorTexts, offsetTexts, parseFloat)
    ensures CapacityObjectives(Join(Tokens(objectives, factorTexts, offsetTexts), ';'), parseFloat) == Ok(objectives)
  {
    var tokens := Tokens(objectives, factorTexts, offsetTexts);
    var text := Join(tokens, ';');
    TokensPlain(objectives, factorTexts, offsetTexts, parseFloat);
    SplitJoin(tokens, ';');
    SplitEmpty();
    assert text != "";
    Thirds(|objectives|);
    TokensRoundTrip(objectives, factorTexts, offsetTexts, parseFloat);
  }

  lemma SplitEmpty()
    ensures Split("", ';') == [""]
  {
  }

  lemma Thirds(n: nat)
    ensures (3 * n) % 3 == 0 && (3 * n) / 3 == n
  {
  }

  /**
   * parseCapacityObjectives as written: the tokens are split once, and a
   * pre-sized array is filled triple by triple until the first error.
   */
  method ParseCapacityObjectives(capacities: string, parseFloat: string -> Option<real>)
    returns (r: Result<seq<CapacityObjective>, CapacityError>)
    ensures r == CapacityObjectives(capacities, parseFloat)
  {
    if capacities == "" {
      return Ok([]);
    }
    var capacityTokens := Split(capacities, ';');
    if |capacityTokens| % 3 != 0 {
      return Err(NotTriplets(|capacityTokens|));
    }
    var nrResources := |capacityTokens| / 3;
    ghost var triples := Triples(capacityTokens, parseFloat);
    var objectives := new CapacityObjective[nrResources](_ => CapacityObjective("", 0.0, 0.0));
    var i := 0;
    while i < nrResources
      invariant 0 <= i <= nrResources
      invariant Collect(triples, i) == Ok(objectives[..i])
    {
      ThirdBound(i, |capacityTokens|);
      var triple := TripleAt(capacityTokens, i, parseFloat);
      assert triple == triples[i];
      if triple.Err? {
        r := Err(triple.error);
        CollectErrorStays(triples, i + 1, nrResources);
        return;
      }
      assert Collect(triples, i + 1) == Ok(objectives[..i] + [triple.value]);
      objectives[i] := triple.value;
      assert objectives[..i + 1] == objectives[..i] + [triple.value];
      i := i + 1;
    }
    assert objectives[..] == objectives[..i];
    return Ok(objectives[..]);
  }

  /** Once the first k triples fail, every longer prefix fails with the same error. */
  lemma {:induction false} CollectErrorStays(triples: seq<Result<CapacityObjective, CapacityError>>, k: nat, m: nat)
    requires k <= m <= |triples|
    requires Collect(triples, k).Err?
    ensures Collect(triples, m) == Collect(triples, k)
    decreases m - k
  {
    if k < m {
      CollectErrorStays(triples, k + 1, m);
    }
  }
}
