/**
 * The plugin's request hook (src/main.rs): the configured operations, the
 * fallback to an empty configuration, and the pass that applies every
 * operation in declaration order to the request's query pairs.
 */
module Plugin {
  import opened Util
  import opened QueryList
  import opened AddOp
  import opened RemoveOp

  /** `QueryParamOperation`: what one configuration entry does to its parameter. */
  datatype QueryParamOperation = Add(add: AddOperation) | Remove(remove: RemoveOperation)

  /** One configuration entry: a parameter name and its operation. */
  type Entry = (string, QueryParamOperation)

  /** No name occurs twice, as in the keys of an `IndexMap`. */
  ghost predicate UniqueKeys(params: seq<Entry>)
  {
    forall i, j :: 0 <= i < j < |params| ==> params[i].0 != params[j].0
  }

  /** `Config.params`: an ordered map from parameter name to operation, in declaration order. */
  type Params = params: seq<Entry> | UniqueKeys(params)

  datatype Config = Config(params: Params)

  /** What `serde_json::from_slice` produced: a configuration, or the text of its error. */
  datatype Decoded = Decoded(config: Config) | DecodeError(message: string)

  /** The configuration in use, and the warnings sent to the host log while obtaining it. */
  datatype Loaded = Loaded(config: Config, warnings: seq<string>)

  /** `get_config`: a configuration that fails to decode is replaced by an empty one, with one warning. */
  function GetConfig(decoded: Decoded): Loaded
  {
    match decoded
    case Decoded(config) => Loaded(config, [])
    case DecodeError(message) => Loaded(Config([]), ["Invalid configuration: " + message])
  }

  /**
   * One step of the pass: the dispatch on the operation's kind. An add
   * always succeeds and adds one pair; a remove never adds a pair.
   */
  function ApplyOperation(name: string, op: QueryParamOperation, isMatch: Matcher, query: seq<Pair>): (r: Outcome<seq<Pair>>)
    ensures op.Add? ==> r.Done? && |r.value| == |query| + 1
    ensures op.Remove? && r.Done? ==> |r.value| <= |query|
  {
    match op
    case Add(add) => Done(add.Applied(name, query))
    case Remove(remove) => remove.Applied(name, isMatch, query)
  }

  /** The pass as a left fold: each entry's operation acts on the previous one's result. */
  function ApplyAll(params: seq<Entry>, isMatch: Matcher, query: seq<Pair>): Outcome<seq<Pair>>
    decreases |params|
  {
    if params == [] then Done(query)
    else
      match ApplyOperation(params[0].0, params[0].1, isMatch, query)
      case Panic => Panic
      case Done(next) => ApplyAll(params[1..], isMatch, next)
  }

  /** What the request hook does: forward the rewritten query with status 1, or trap on a panic. */
  datatype HookResult = Forward(status: int, query: seq<Pair>) | Trap

  /**
   * `http_request`, from the decoded query pairs to the pairs written back:
   * it applies the configured operations one at a time, in the configuration's
   * order, to one working list, and returns 1 to let the request continue.
   */
  method HttpRequest(config: Config, originalQuery: seq<Pair>, isMatch: Matcher) returns (result: HookResult)
    ensures result == match ApplyAll(config.params, isMatch, originalQuery)
                      case Done(rewritten) => Forward(1, rewritten)
                      case Panic => Trap
  {
    var query := new Query(originalQuery);
    var params := config.params;
    for i := 0 to |params|
      invariant ApplyAll(params, isMatch, originalQuery) == ApplyAll(params[i..], isMatch, query.pairs)
    {
      assert params[i..][1..] == params[i + 1..];
      var (key, operation) := params[i];
      match operation
      case Add(addOperation) =>
        addOperation.Apply(key, query);
      case Remove(removeOperation) =>
        var ok := removeOperation.Apply(key, query, isMatch);
        if !ok {
          return Trap;
        }
    }
    return Forward(1, query.pairs);
  }

  /** An empty configuration leaves the query pairs as they are, in order. */
  lemma EmptyConfigIsNoOp(isMatch: Matcher, query: seq<Pair>)
    ensures ApplyAll([], isMatch, query) == Done(query)
  {
  }

  /**
   * A configuration that fails to decode yields one warning and a pass that
   * leaves every query unchanged.
   */
  lemma InvalidConfigIsNoOp(message: string, isMatch: Matcher, query: seq<Pair>)
    ensures |GetConfig(DecodeError(message)).warnings| == 1
    ensures ApplyAll(GetConfig(DecodeError(message)).config.params, isMatch, query) == Done(query)
  {
  }

  /** A configuration that decodes is used as it is, without a warning. */
  lemma ValidConfigIsUsed(config: Config)
    ensures GetConfig(Decoded(config)) == Loaded(config, [])
  {
  }

  /** Running `c1 + c2` is running `c2` on what `c1` produced. */
  lemma {:induction false} ApplyAllConcat(c1: seq<Entry>, c2: seq<Entry>, isMatch: Matcher, query: seq<Pair>)
    ensures ApplyAll(c1 + c2, isMatch, query) ==
      match ApplyAll(c1, isMatch, query)
      case Done(middle) => ApplyAll(c2, isMatch, middle)
      case Panic => Panic
  {
    if c1 == [] {
      assert c1 + c2 == c2;
    } else {
      assert (c1 + c2)[0] == c1[0];
      assert (c1 + c2)[1..] == c1[1..] + c2;
      match ApplyOperation(c1[0].0, c1[0].1, isMatch, query)
      case Panic =>
      case Done(next) => ApplyAllConcat(c1[1..], c2, isMatch, next);
    }
  }

  /** Two configurations over disjoint names concatenate into one, which runs the second after the first. */
  lemma ConfigConcat(c1: Config, c2: Config, isMatch: Matcher, query: seq<Pair>)
    requires forall i, j :: 0 <= i < |c1.params| && 0 <= j < |c2.params| ==> c1.params[i].0 != c2.params[j].0
    ensures UniqueKeys(c1.params + c2.params)
    ensures ApplyAll(c1.params + c2.params, isMatch, query) ==
      match ApplyAll(c1.params, isMatch, query)
      case Done(middle) => ApplyAll(c2.params, isMatch, middle)
      case Panic => Panic
  {
    var both := c1.params + c2.params;
    forall i, j | 0 <= i < j < |both| ensures both[i].0 != both[j].0 {
      if j < |c1.params| {
      } else if i < |c1.params| {
        assert both[j] == c2.params[j - |c1.params|];
      } else {
        assert both[i] == c2.params[i - |c1.params|];
        assert both[j] == c2.params[j - |c1.params|];
      }
    }
    ApplyAllConcat(c1.params, c2.params, isMatch, query);
  }

  /** A configuration made only of adds never traps and adds one pair per entry. */
  lemma {:induction false} AddsOnlyNeverTrap(params: seq<Entry>, isMatch: Matcher, query: seq<Pair>)
    requires forall i :: 0 <= i < |params| ==> params[i].1.Add?
    ensures ApplyAll(params, isMatch, query).Done?
    ensures |ApplyAll(params, isMatch, query).value| == |query| + |params|
  {
    if params != [] {
      assert params[0].1.Add?;
      var next := ApplyOperation(params[0].0, params[0].1, isMatch, query).value;
      AddsOnlyNeverTrap(params[1..], isMatch, next);
    }
  }

  /** Each parameter name has at most one operation in a configuration. */
  lemma AtMostOneOperationPerName(config: Config, i: nat, j: nat)
    requires i < |config.params| && j < |config.params|
    requires config.params[i].0 == config.params[j].0
    ensures i == j
  {
  }
}
