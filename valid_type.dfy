/** The `__valid_type__` decorator of utils/functions.py: check the positional
    arguments, then the declared keyword arguments, against their expected
    types, and call the wrapped function only when every check passes.
    `isInstance` stands for Python's `isinstance`. */
module ValidType {
  import opened Outcomes

  /** Which check raised `TypeError`. */
  datatype Mismatch = PositionalMismatch(index: nat) | KeywordMismatch(name: string)

  /** The index of the first positional argument, among those that `zip`
      pairs with an expected type, that is not an instance of it. */
  function FirstPositionalMismatch<A, T>(args: seq<A>, argTypes: seq<T>, isInstance: (A, T) -> bool): (r: Option<nat>)
    ensures r.None? <==> forall i :: 0 <= i < |args| && i < |argTypes| ==> isInstance(args[i], argTypes[i])
    ensures r.Some? ==> r.value < |args| && r.value < |argTypes| && !isInstance(args[r.value], argTypes[r.value])
    ensures r.Some? ==> forall i :: 0 <= i < r.value ==> isInstance(args[i], argTypes[i])
  {
    if args == [] || argTypes == [] then None
    else if !isInstance(args[0], argTypes[0]) then Some(0)
    else match FirstPositionalMismatch(args[1..], argTypes[1..], isInstance)
      case None => None
      case Some(i) => Some(i + 1)
  }

  /** Whether the declared keyword type at `i` rejects the call: the name is
      among the passed keyword arguments and its value is of the wrong type. */
  predicate KeywordRejects<A, T>(kwargs: map<string, A>, kwargTypes: seq<(string, T)>, isInstance: (A, T) -> bool, i: nat)
    requires i < |kwargTypes|
  {
    kwargTypes[i].0 in kwargs && !isInstance(kwargs[kwargTypes[i].0], kwargTypes[i].1)
  }

  /** The index, in the declaration order of `kwarg_types`, of the first
      declared keyword that rejects the call. */
  function FirstKeywordMismatch<A, T>(kwargs: map<string, A>, kwargTypes: seq<(string, T)>, isInstance: (A, T) -> bool): (r: Option<nat>)
    ensures r.None? <==> forall i :: 0 <= i < |kwargTypes| ==> !KeywordRejects(kwargs, kwargTypes, isInstance, i)
    ensures r.Some? ==> r.value < |kwargTypes| && KeywordRejects(kwargs, kwargTypes, isInstance, r.value)
    ensures r.Some? ==> forall i :: 0 <= i < r.value ==> !KeywordRejects(kwargs, kwargTypes, isInstance, i)
  {
    if kwargTypes == [] then None
    else if KeywordRejects(kwargs, kwargTypes, isInstance, 0) then Some(0)
    else match FirstKeywordMismatch(kwargs, kwargTypes[1..], isInstance)
      case None =>
        assert forall i :: 1 <= i < |kwargTypes| ==>
          KeywordRejects(kwargs, kwargTypes, isInstance, i) == KeywordRejects(kwargs, kwargTypes[1..], isInstance, i - 1);
        None
      case Some(i) =>
        assert forall j :: 1 <= j < |kwargTypes| ==>
          KeywordRejects(kwargs, kwargTypes, isInstance, j) == KeywordRejects(kwargs, kwargTypes[1..], isInstance, j - 1);
        assert KeywordRejects(kwargs, kwargTypes, isInstance, i + 1);
        Some(i + 1)
  }

  /** One call of the decorated function: `TypeError` at the first failing
      check, otherwise whatever the wrapped function `func` gives. */
  function Call<A, T, R>(argTypes: seq<T>, kwargTypes: seq<(string, T)>, isInstance: (A, T) -> bool,
                         func: (seq<A>, map<string, A>) -> R,
                         args: seq<A>, kwargs: map<string, A>): (r: Outcome<R, Mismatch>)
    ensures r.Returned? <==>
      && (forall i :: 0 <= i < |args| && i < |argTypes| ==> isInstance(args[i], argTypes[i]))
      && (forall i :: 0 <= i < |kwargTypes| ==> !KeywordRejects(kwargs, kwargTypes, isInstance, i))
    ensures r.Returned? ==> r.value == func(args, kwargs)
    // a positional mismatch is reported before any keyword is looked at
    ensures r.Raised? && r.error.PositionalMismatch? ==>
      var k := r.error.index;
      && k < |args| && k < |argTypes| && !isInstance(args[k], argTypes[k])
      && forall i :: 0 <= i < k ==> isInstance(args[i], argTypes[i])
    ensures r.Raised? && r.error.KeywordMismatch? ==>
      && (forall i :: 0 <= i < |args| && i < |argTypes| ==> isInstance(args[i], argTypes[i]))
      && exists i :: 0 <= i < |kwargTypes| && kwargTypes[i].0 == r.error.name && KeywordRejects(kwargs, kwargTypes, isInstance, i)
           && forall j :: 0 <= j < i ==> !KeywordRejects(kwargs, kwargTypes, isInstance, j)
  {
    match FirstPositionalMismatch(args, argTypes, isInstance)
    case Some(k) => Raised(PositionalMismatch(k))
    case None =>
      match FirstKeywordMismatch(kwargs, kwargTypes, isInstance)
      case Some(i) => Raised(KeywordMismatch(kwargTypes[i].0))
      case None => Returned(func(args, kwargs))
  }

  /** Positional arguments beyond the declared types are never checked. */
  lemma {:induction false} SurplusArgumentsUnchecked<A, T>(args: seq<A>, surplus: seq<A>, argTypes: seq<T>, isInstance: (A, T) -> bool)
    requires |args| >= |argTypes|
    ensures FirstPositionalMismatch(args + surplus, argTypes, isInstance) == FirstPositionalMismatch(args, argTypes, isInstance)
  {
    if argTypes != [] {
      assert (args + surplus)[1..] == args[1..] + surplus;
      SurplusArgumentsUnchecked(args[1..], surplus, argTypes[1..], isInstance);
    }
  }

  /** A declared keyword that the call does not pass is never checked:
      declaring it changes nothing. */
  lemma {:induction false} AbsentKeywordUnchecked<A, T>(kwargs: map<string, A>, before: seq<(string, T)>, name: string, t: T,
                                                       after: seq<(string, T)>, isInstance: (A, T) -> bool)
    requires name !in kwargs
    ensures FirstKeywordMismatch(kwargs, before + [(name, t)] + after, isInstance).None?
        <==> FirstKeywordMismatch(kwargs, before + after, isInstance).None?
  {
    var withIt := before + [(name, t)] + after;
    var without := before + after;
    forall i | 0 <= i < |withIt| && i != |before|
      ensures KeywordRejects(kwargs, withIt, isInstance, i)
          == KeywordRejects(kwargs, without, isInstance, if i < |before| then i else i - 1)
    {
    }
    assert !KeywordRejects(kwargs, withIt, isInstance, |before|);
    if FirstKeywordMismatch(kwargs, without, isInstance).Some? {
      var j := FirstKeywordMismatch(kwargs, without, isInstance).value;
      assert KeywordRejects(kwargs, withIt, isInstance, if j < |before| then j else j + 1);
    }
  }
}
