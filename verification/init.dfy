/** `init_add` of meesee.py: replaces selected handler keyword arguments by
    the objects their factories build, in place, turning a `TypeError` into
    `InitFail`. */
module Init {

  /** The settings dict a factory is called with (`**config`); its contents
      are opaque to the model. */
  type FactoryConfig = map<string, string>

  /** A keyword argument of the handler: a factory (a class or other
      callable) or any value that cannot be called, including an object a
      factory already built. */
  datatype Arg = Factory(factory: nat) | Built(obj: nat)

  type Kwargs = map<string, Arg>

  /** An exception other than `TypeError` and `InitFail`. */
  datatype Exc = KeyError(name: string) | Other(code: nat)

  /** What calling a factory with its settings does. */
  datatype Call = Returns(obj: nat) | RaisesTypeError | Raises(error: Exc)

  /** How `init_add` ends: normally, by raising `InitFail`, or by letting
      another exception through. */
  datatype InitOutcome = Added | InitFail | Raised(error: Exc)

  /** The dict after the call (it is mutated in place, so the entries
      rewritten before a failure stay rewritten), how the call ended, and how
      many entries of `init_kwargs` were rewritten. */
  datatype InitResult = InitResult(kwargs: Kwargs, outcome: InitOutcome, applied: nat)

  /** Python dict keys are distinct. */
  predicate DistinctNames(init: seq<(string, FactoryConfig)>)
  {
    forall i, j :: 0 <= i < j < |init| ==> init[i].0 != init[j].0
  }

  /** What evaluating `kwargs[name](**config)` alone does: a missing name
      raises `KeyError`, calling a non-callable raises `TypeError`. */
  function EntryOutcome(kwargs: Kwargs, name: string, config: FactoryConfig, build: (nat, FactoryConfig) -> Call): InitOutcome
  {
    if name !in kwargs then Raised(KeyError(name))
    else match kwargs[name]
      case Built(_) => InitFail
      case Factory(f) =>
        match build(f, config)
        case Returns(_) => Added
        case RaisesTypeError => InitFail
        case Raises(e) => Raised(e)
  }

  /** What `init_add` promises about its result `r`: the first `applied`
      names now hold what their factories returned, every other key is
      untouched, and the call ends `Added` exactly when every entry
      succeeds; otherwise it ends as the first failing entry does. */
  ghost predicate InitFacts(kwargs: Kwargs, init: seq<(string, FactoryConfig)>, build: (nat, FactoryConfig) -> Call, r: InitResult)
  {
    && r.applied <= |init|
    && r.kwargs.Keys == kwargs.Keys
    && (forall j :: 0 <= j < r.applied ==>
          EntryOutcome(kwargs, init[j].0, init[j].1, build) == Added &&
          r.kwargs[init[j].0] == Built(build(kwargs[init[j].0].factory, init[j].1).obj))
    && (forall name :: name in kwargs && (forall j :: 0 <= j < r.applied ==> init[j].0 != name) ==>
          r.kwargs[name] == kwargs[name])
    && (r.applied == |init| <==> r.outcome == Added)
    && (r.applied < |init| ==> r.outcome == EntryOutcome(kwargs, init[r.applied].0, init[r.applied].1, build))
  }

  /** The dict `init_add` continues with after rewriting the first entry. */
  function RewriteFirst(kwargs: Kwargs, init: seq<(string, FactoryConfig)>, build: (nat, FactoryConfig) -> Call): Kwargs
    requires init != [] && EntryOutcome(kwargs, init[0].0, init[0].1, build) == Added
  {
    kwargs[init[0].0 := Built(build(kwargs[init[0].0].factory, init[0].1).obj)]
  }

  /** Rewriting the first entry and then `applied` entries of the rest
      rewrites the first `applied + 1` entries, each by its own factory. */
  lemma InitFactsStepBuilt(kwargs: Kwargs, init: seq<(string, FactoryConfig)>, build: (nat, FactoryConfig) -> Call, rest: InitResult)
    requires DistinctNames(init) && init != []
    requires EntryOutcome(kwargs, init[0].0, init[0].1, build) == Added
    requires InitFacts(RewriteFirst(kwargs, init, build), init[1..], build, rest)
    ensures forall j :: 0 <= j < rest.applied + 1 ==>
              EntryOutcome(kwargs, init[j].0, init[j].1, build) == Added &&
              rest.kwargs[init[j].0] == Built(build(kwargs[init[j].0].factory, init[j].1).obj)
  {
    var name := init[0].0;
    var kwargs' := RewriteFirst(kwargs, init, build);
    var tail := init[1..];
    forall j | 0 <= j < rest.applied + 1
      ensures EntryOutcome(kwargs, init[j].0, init[j].1, build) == Added
      ensures rest.kwargs[init[j].0] == Built(build(kwargs[init[j].0].factory, init[j].1).obj)
    {
      if j > 0 {
        assert tail[j - 1] == init[j] && init[j].0 != name;
        assert EntryOutcome(kwargs', tail[j - 1].0, tail[j - 1].1, build) == Added;
        assert kwargs'[init[j].0] == kwargs[init[j].0];
      } else {
        assert forall i :: 0 <= i < rest.applied ==> tail[i].0 != name by {
          forall i | 0 <= i < rest.applied ensures tail[i].0 != name {
            assert tail[i] == init[i + 1];
          }
        }
        assert rest.kwargs[name] == kwargs'[name];
      }
    }
  }

  /** ... and leaves every other name as it was. */
  lemma InitFactsStepUntouched(kwargs: Kwargs, init: seq<(string, FactoryConfig)>, build: (nat, FactoryConfig) -> Call, rest: InitResult)
    requires init != []
    requires EntryOutcome(kwargs, init[0].0, init[0].1, build) == Added
    requires InitFacts(RewriteFirst(kwargs, init, build), init[1..], build, rest)
    ensures forall n :: n in kwargs && (forall j :: 0 <= j < rest.applied + 1 ==> init[j].0 != n) ==>
              rest.kwargs[n] == kwargs[n]
  {
    var tail := init[1..];
    forall n | n in kwargs && (forall j :: 0 <= j < rest.applied + 1 ==> init[j].0 != n)
      ensures rest.kwargs[n] == kwargs[n]
    {
      assert n != init[0].0;
      assert forall i :: 0 <= i < rest.applied ==> tail[i].0 != n by {
        forall i | 0 <= i < rest.applied ensures tail[i].0 != n {
          assert tail[i] == init[i + 1];
        }
      }
    }
  }

  /** Rewriting the first entry and then running on the rest keeps
      `InitFacts` for the whole list. */
  lemma InitFactsStep(kwargs: Kwargs, init: seq<(string, FactoryConfig)>, build: (nat, FactoryConfig) -> Call, rest: InitResult)
    requires DistinctNames(init) && init != []
    requires EntryOutcome(kwargs, init[0].0, init[0].1, build) == Added
    requires InitFacts(RewriteFirst(kwargs, init, build), init[1..], build, rest)
    ensures InitFacts(kwargs, init, build, InitResult(rest.kwargs, rest.outcome, rest.applied + 1))
  {
    var kwargs' := RewriteFirst(kwargs, init, build);
    InitFactsStepBuilt(kwargs, init, build, rest);
    InitFactsStepUntouched(kwargs, init, build, rest);
    var r := InitResult(rest.kwargs, rest.outcome, rest.applied + 1);
    if r.applied < |init| {
      assert init[1..][rest.applied] == init[r.applied];
      var k := init[r.applied].0;
      assert k != init[0].0;
      assert (k in kwargs' <==> k in kwargs) && (k in kwargs ==> kwargs'[k] == kwargs[k]);
    }
  }

  /** `init_add(kwargs, init_kwargs)`, with `init_kwargs` as its entries in
      iteration order and the factories' behaviour given by `build`. */
  function InitAdd(kwargs: Kwargs, init: seq<(string, FactoryConfig)>, build: (nat, FactoryConfig) -> Call): (r: InitResult)
    ensures r.applied <= |init|
    ensures r.applied == |init| <==> r.outcome == Added
    ensures r.kwargs.Keys == kwargs.Keys
    decreases |init|
  {
    if init == [] then InitResult(kwargs, Added, 0)
    else
      var name := init[0].0;
      var outcome := EntryOutcome(kwargs, name, init[0].1, build);
      if outcome != Added then InitResult(kwargs, outcome, 0)
      else
        var rest := InitAdd(RewriteFirst(kwargs, init, build), init[1..], build);
        InitResult(rest.kwargs, rest.outcome, rest.applied + 1)
  }

  /** `init_add` keeps `InitFacts`. */
  lemma {:induction false} InitAddFacts(kwargs: Kwargs, init: seq<(string, FactoryConfig)>, build: (nat, FactoryConfig) -> Call)
    requires DistinctNames(init)
    ensures InitFacts(kwargs, init, build, InitAdd(kwargs, init, build))
    decreases |init|
  {
    if init != [] && EntryOutcome(kwargs, init[0].0, init[0].1, build) == Added {
      var kwargs' := RewriteFirst(kwargs, init, build);
      InitAddFacts(kwargs', init[1..], build);
      var rest := InitAdd(kwargs', init[1..], build);
      InitFactsStep(kwargs, init, build, rest);
      assert InitAdd(kwargs, init, build) == InitResult(rest.kwargs, rest.outcome, rest.applied + 1);
    }
  }

  /** A successful `init_add` leaves every listed name holding a built
      object, so running it again on the same dict fails with `InitFail`
      at the first name: the built objects are not callable. */
  lemma InitAddTwiceFails(kwargs: Kwargs, init: seq<(string, FactoryConfig)>, build: (nat, FactoryConfig) -> Call)
    requires DistinctNames(init) && |init| > 0
    requires InitAdd(kwargs, init, build).outcome == Added
    ensures InitAdd(InitAdd(kwargs, init, build).kwargs, init, build).outcome == InitFail
    ensures InitAdd(InitAdd(kwargs, init, build).kwargs, init, build).applied == 0
  {
    var first := InitAdd(kwargs, init, build);
    InitAddFacts(kwargs, init, build);
    assert first.applied == |init|;
    assert first.kwargs[init[0].0].Built?;
  }
}
