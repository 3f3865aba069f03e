/**
 * `VCRTestListener`: the PHPUnit listener that turns the recorder on around
 * one test. `StartTestSpec` gives, as a function of whether the test method
 * exists, its doc comment and the listener's options, the exact calls that
 * `startTest` makes on the recorder and what it returns; the class below
 * runs those steps one by one and is proved to make exactly those calls.
 */
module Listener {
  import opened Wrappers
  import opened DocBlock
  import opened Vcr

  /** The option names `configure` knows. */
  const KnownOptions: set<string> := {"mode", "cassettePath", "requestMatchers", "whiteList", "blackList"}

  /** The message of the RuntimeException thrown for an unknown option. */
  function UnknownOptionMessage(option: string): string {
    "Unknown VCR configuration option \"" + option + "\""
  }

  /**
   * `configure($configuration, $option, $value)`: the one setter call an
   * option selects, or the exception an unknown option raises.
   */
  function Dispatch<V>(option: string, value: V): (r: Result<Call<V>, string>)
    ensures r.Ok? <==> option in KnownOptions
    ensures r.Ok? ==> r.value.IsSetter() && r.value.OptionName() == option && r.value.argument == value
    ensures r.Err? ==> r.error == UnknownOptionMessage(option)
  {
    if option == "mode" then Ok(SetMode(value))
    else if option == "cassettePath" then Ok(SetCassettePath(value))
    else if option == "requestMatchers" then Ok(EnableRequestMatchers(value))
    else if option == "whiteList" then Ok(SetWhiteList(value))
    else if option == "blackList" then Ok(SetBlackList(value))
    else Err(UnknownOptionMessage(option))
  }

  /** Every setter call is what `configure` makes of its option name and argument. */
  lemma DispatchSetter<V>(c: Call<V>)
    requires c.IsSetter()
    ensures Dispatch(c.OptionName(), c.argument) == Ok(c)
  {
  }

  /** What the `foreach` over the options did: the setter calls made, and the exception that stopped it, if any. */
  datatype Applied<V> = Applied(calls: seq<Call<V>>, failure: Option<string>)

  /** The `foreach` over the options: a setter call per option until an unknown one throws. */
  function ApplyAll<V>(options: seq<(string, V)>): Applied<V>
  {
    if options == [] then Applied([], None)
    else match Dispatch(options[0].0, options[0].1)
      case Err(message) => Applied([], Some(message))
      case Ok(call) =>
        var rest := ApplyAll(options[1..]);
        Applied([call] + rest.calls, rest.failure)
  }

  /**
   * The options are applied in order: one setter call for each option up to
   * the first unknown one, whose exception ends the loop.
   */
  lemma {:induction false} ApplyAllInOrder<V>(options: seq<(string, V)>)
    ensures var a := ApplyAll(options);
            && |a.calls| <= |options|
            && (forall k :: 0 <= k < |a.calls| ==> Dispatch(options[k].0, options[k].1) == Ok(a.calls[k]))
            && (a.failure == None <==> |a.calls| == |options|)
            && (a.failure.Some? ==> Dispatch(options[|a.calls|].0, options[|a.calls|].1) == Err(a.failure.value))
    decreases |options|
  {
    if options != [] {
      ApplyAllInOrder(options[1..]);
      var a, r := ApplyAll(options), ApplyAll(options[1..]);
      if Dispatch(options[0].0, options[0].1).Ok? {
        forall k | 0 <= k < |a.calls| ensures Dispatch(options[k].0, options[k].1) == Ok(a.calls[k]) {
          if k > 0 { assert a.calls[k] == r.calls[k - 1] && options[k] == options[1..][k - 1]; }
        }
        if a.failure.Some? {
          assert options[|a.calls|] == options[1..][|r.calls|];
        }
      }
    }
  }

  /** True when every option name is one `configure` knows. */
  predicate AllKnown<V>(options: seq<(string, V)>) {
    forall k :: 0 <= k < |options| ==> options[k].0 in KnownOptions
  }

  /** The loop runs to the end exactly when every option is known, and it only ever calls setters. */
  lemma ApplyAllCompletes<V>(options: seq<(string, V)>)
    ensures ApplyAll(options).failure == None <==> AllKnown(options)
    ensures forall k :: 0 <= k < |ApplyAll(options).calls| ==> ApplyAll(options).calls[k].IsSetter()
  {
  }

  /**
   * Applying two runs of options one after the other: the second run is
   * applied only when the first raised nothing.
   */
  lemma {:induction false} ApplyAllAppend<V>(first: seq<(string, V)>, second: seq<(string, V)>)
    ensures var a := ApplyAll(first);
            ApplyAll(first + second)
            == if a.failure.Some? then a
               else Applied(a.calls + ApplyAll(second).calls, ApplyAll(second).failure)
    decreases |first|
  {
    if first == [] {
      assert first + second == second;
    } else {
      var whole := first + second;
      assert whole[0] == first[0];
      assert whole[1..] == first[1..] + second;
      ApplyAllAppend(first[1..], second);
      match Dispatch(first[0].0, first[0].1)
      case Err(_) =>
      case Ok(call) =>
        var r := ApplyAll(first[1..]);
        var b := ApplyAll(second);
        if r.failure.None? {
          assert [call] + (r.calls + b.calls) == ([call] + r.calls) + b.calls;
        }
    }
  }

  /** What `startTest` returns: null, true, or a thrown RuntimeException with its message. */
  datatype StartResult = ReturnedNull | ReturnedTrue | Threw(message: string)

  /** The result of `startTest` and the calls it made on the recorder, in order. */
  datatype StartOutcome<V> = StartOutcome(result: StartResult, calls: seq<Call<V>>)

  /** `array_pop` of the parsed directives: the last one, or null when there is none. */
  function ArrayPop(directives: seq<string>): (r: Option<string>)
    ensures r == None <==> directives == []
    ensures r.Some? ==> r.value == directives[|directives| - 1]
  {
    if directives == [] then None else Some(directives[|directives| - 1])
  }

  /** The cassette a doc comment names: its last `@vcr` directive. */
  function CassetteName(docComment: Option<string>): Option<string> {
    ArrayPop(ParseDocBlock(docComment))
  }

  /**
   * `substr($cassetteName, -5) == '.json'`: the last five characters are
   * ".json". A shorter name comes back whole from substr and cannot equal
   * the five-character literal; null becomes "".
   */
  predicate IsJsonName(name: Option<string>) {
    name.Some? && |name.value| >= 5 && name.value[|name.value| - 5..] == ".json"
  }

  /** A cassette name passes the JSON check exactly when it is some name followed by ".json". */
  lemma JsonNameIff(name: string)
    ensures IsJsonName(Some(name)) <==> exists base :: name == base + ".json"
  {
    if IsJsonName(Some(name)) {
      assert name == name[..|name| - 5] + ".json";
    }
    if exists base :: name == base + ".json" {
      var base :| name == base + ".json";
      assert name[|name| - 5..] == ".json";
    }
  }

  /** The storage switch startTest makes when the cassette name ends in ".json". */
  function StorageCalls<V>(name: Option<string>): seq<Call<V>> {
    if IsJsonName(name) then [SetStorage("json")] else []
  }

  /** turnOn and the insertion of the cassette, which startTest makes unless the name is empty. */
  function InsertCalls<V>(name: Option<string>): seq<Call<V>> {
    if IsPhpEmpty(name) then [] else [TurnOn, InsertCassette(name.value)]
  }

  /** The calls startTest makes after the options, given the cassette name. */
  function AfterOptions<V>(name: Option<string>): seq<Call<V>> {
    StorageCalls(name) + InsertCalls(name)
  }

  /** The calls `startTest` makes and what it returns, once the cassette name has been read. */
  function Start<V>(methodExists: bool, name: Option<string>, options: seq<(string, V)>): StartOutcome<V>
  {
    if !methodExists then StartOutcome(ReturnedNull, [])
    else
      var applied := ApplyAll(options);
      if applied.failure.Some? then StartOutcome(Threw(applied.failure.value), applied.calls)
      else if IsPhpEmpty(name) then StartOutcome(ReturnedTrue, applied.calls + AfterOptions(name))
      else StartOutcome(ReturnedNull, applied.calls + AfterOptions(name))
  }

  /** The calls `startTest` makes and what it returns. */
  function StartTestSpec<V>(methodExists: bool, docComment: Option<string>, options: seq<(string, V)>): StartOutcome<V>
  {
    Start(methodExists, CassetteName(docComment), options)
  }

  /** The conditions under which startTest turns the recorder on. */
  predicate Activates<V>(methodExists: bool, name: Option<string>, options: seq<(string, V)>) {
    methodExists && AllKnown(options) && !IsPhpEmpty(name)
  }

  /** Calls that only configure: none turns the recorder on or off or inserts a cassette. */
  predicate OnlyConfigures<V>(calls: seq<Call<V>>) {
    forall k :: 0 <= k < |calls| ==> calls[k].IsSetter() || calls[k].SetStorage?
  }

  lemma OnlyConfiguresKeepsPower<V>(calls: seq<Call<V>>)
    requires OnlyConfigures(calls)
    ensures KeepsPower(calls) && TurnOn !in calls
    ensures forall k :: 0 <= k < |calls| ==> !calls[k].InsertCassette?
  {
  }

  /** The option setters and the storage switch only configure the recorder. */
  lemma ConfigurationCalls<V>(name: Option<string>, options: seq<(string, V)>)
    ensures OnlyConfigures(ApplyAll(options).calls)
    ensures OnlyConfigures(ApplyAll(options).calls + StorageCalls(name))
  {
  }

  /** A test whose method does not exist gets no call at all, and startTest returns null. */
  lemma StartUnresolvable<V>(name: Option<string>, options: seq<(string, V)>)
    ensures Start(false, name, options) == StartOutcome(ReturnedNull, [])
  {
  }

  /**
   * When the method exists, every option is applied, in order, before
   * anything else, and the calls after them are never setters.
   */
  lemma StartAppliesOptionsFirst<V>(name: Option<string>, options: seq<(string, V)>)
    requires AllKnown(options)
    ensures var calls := Start(true, name, options).calls;
            |calls| >= |options|
            && (forall k :: 0 <= k < |options| ==> Dispatch(options[k].0, options[k].1) == Ok(calls[k]))
            && (forall k :: |options| <= k < |calls| ==> !calls[k].IsSetter())
  {
    ApplyAllInOrder(options);
    ApplyAllCompletes(options);
    var a := ApplyAll(options);
    var after := AfterOptions<V>(name);
    var calls := a.calls + after;
    assert Start(true, name, options).calls == calls;
    forall k | |options| <= k < |calls| ensures !calls[k].IsSetter() {
      assert calls[k] == after[k - |options|];
    }
  }

  /**
   * The first unknown option aborts startTest with a RuntimeException naming
   * it: the options before it have been applied, nothing else has happened.
   */
  lemma StartUnknownOption<V>(name: Option<string>, options: seq<(string, V)>, j: nat)
    requires j < |options| && AllKnown(options[..j]) && options[j].0 !in KnownOptions
    ensures var o := Start(true, name, options);
            o.result == Threw(UnknownOptionMessage(options[j].0))
            && |o.calls| == j
            && (forall k :: 0 <= k < j ==> Dispatch(options[k].0, options[k].1) == Ok(o.calls[k]))
  {
    assert options == options[..j] + options[j..];
    ApplyAllAppend(options[..j], options[j..]);
    ApplyAllCompletes(options[..j]);
    ApplyAllInOrder(options[..j]);
    assert options[j..][0] == options[j];
    var a := ApplyAll(options[..j]);
    forall k | 0 <= k < j ensures Dispatch(options[k].0, options[k].1) == Ok(a.calls[k]) {
      assert options[..j][k] == options[k];
    }
  }

  /**
   * startTest switches the storage to JSON exactly when the method exists,
   * every option is known and the cassette name ends in ".json".
   */
  lemma StartJsonStorage<V>(methodExists: bool, name: Option<string>, options: seq<(string, V)>)
    ensures var calls := Start(methodExists, name, options).calls;
            SetStorage("json") in calls
            <==> methodExists && AllKnown(options) && IsJsonName(name)
  {
    if methodExists {
      ApplyAllCompletes(options);
      var a := ApplyAll(options);
      assert SetStorage("json") !in a.calls;
    }
  }

  /**
   * What startTest does, in two shapes: when it activates the recorder, the
   * configuring calls followed by turnOn and the insertion of the cassette,
   * with a null result; otherwise configuring calls only.
   */
  lemma StartShape<V>(methodExists: bool, name: Option<string>, options: seq<(string, V)>)
    ensures var o := Start(methodExists, name, options);
            var front := ApplyAll(options).calls + StorageCalls(name);
            if Activates(methodExists, name, options)
            then o.result == ReturnedNull && o.calls == front + [TurnOn, InsertCassette(name.value)]
            else OnlyConfigures(o.calls)
  {
    ConfigurationCalls(name, options);
    ApplyAllCompletes(options);
    var a := ApplyAll(options).calls;
    if methodExists && AllKnown(options) {
      assert a + AfterOptions(name) == (a + StorageCalls(name)) + InsertCalls(name);
    }
  }

  /**
   * startTest returns true exactly when the method exists, every option is
   * known and the cassette name is empty in PHP's sense (no directive, a
   * blank one, or "0"); then it neither turns the recorder on or off nor
   * inserts a cassette.
   */
  lemma StartReturnsTrue<V>(methodExists: bool, name: Option<string>, options: seq<(string, V)>)
    ensures var o := Start(methodExists, name, options);
            o.result == ReturnedTrue
            <==> methodExists && AllKnown(options) && IsPhpEmpty(name)
    ensures var o := Start(methodExists, name, options);
            o.result == ReturnedTrue ==> KeepsPower(o.calls) && forall k :: 0 <= k < |o.calls| ==> !o.calls[k].InsertCassette?
  {
    ApplyAllCompletes(options);
    StartShape(methodExists, name, options);
    var o := Start(methodExists, name, options);
    if o.result == ReturnedTrue {
      OnlyConfiguresKeepsPower(o.calls);
    }
  }

  /**
   * startTest turns the recorder on exactly when the method exists, every
   * option is known and the cassette name is not empty; then its last two
   * calls are turnOn and the insertion of that cassette, it returns null,
   * and no earlier call turns the recorder on or off or inserts a cassette.
   */
  lemma StartInsertsCassette<V>(methodExists: bool, name: Option<string>, options: seq<(string, V)>)
    ensures var o := Start(methodExists, name, options);
            TurnOn in o.calls <==> Activates(methodExists, name, options)
    ensures var o := Start(methodExists, name, options);
            TurnOn in o.calls ==>
              && o.result == ReturnedNull
              && |o.calls| >= 2
              && o.calls[|o.calls| - 2..] == [TurnOn, InsertCassette(name.value)]
              && KeepsPower(o.calls[..|o.calls| - 2])
              && forall k :: 0 <= k < |o.calls| - 2 ==> !o.calls[k].InsertCassette?
  {
    StartShape(methodExists, name, options);
    ConfigurationCalls(name, options);
    var calls := Start(methodExists, name, options).calls;
    if Activates(methodExists, name, options) {
      var front := ApplyAll(options).calls + StorageCalls(name);
      OnlyConfiguresKeepsPower(front);
      assert calls[|calls| - 2] == TurnOn;
      assert calls[..|calls| - 2] == front;
      assert calls[|calls| - 2..] == [TurnOn, InsertCassette(name.value)];
    } else {
      OnlyConfiguresKeepsPower(calls);
    }
  }

  /**
   * The cassette is the last `@vcr` directive: for a doc comment made of
   * tagged lines, the trimmed argument of the last one.
   */
  lemma LastDirectiveWins(lines: seq<TagLine>, closing: string)
    requires WellFormed(lines) && NoTag(closing) && lines != []
    ensures CassetteName(Some(Render(lines, closing))) == Some(Trim(lines[|lines| - 1].argument))
  {
    ParseRendered(lines, closing);
  }

  /**
   * For any doc comment that names a cassette, the cassette is the trimmed
   * capture of a real match of the pattern, and the pattern matches nowhere
   * from that match's line end on: a later `@vcr` line would have won.
   */
  lemma CassetteIsLastMatch(docComment: Option<string>)
    requires CassetteName(docComment) != None
    ensures docComment.Some? && Scan(docComment.value) != []
    ensures var s := docComment.value;
            var m := Scan(s)[|Scan(s)| - 1];
            && MatchAt(s, m.start, m.capture)
            && CassetteName(docComment) == Some(Trim(m.capture))
            && forall p :: MatchEnd(m) <= p <= |s| ==> !MatchesAt(s, p)
  {
    var s := docComment.value;
    ParseDocBlockMatches(docComment, |Scan(s)| - 1);
    forall p | MatchEnd(Scan(s)[|Scan(s)| - 1]) <= p <= |s| ensures !MatchesAt(s, p) {
      LastMatchCovers(s, p);
    }
  }

  /** A trace whose last power call is turnOn, followed by a cassette insertion, leaves the recorder on. */
  lemma OnAfterInsert<V>(front: seq<Call<V>>, cassette: string)
    ensures RecorderOn(front + [TurnOn, InsertCassette(cassette)])
  {
    var all := front + [TurnOn, InsertCassette(cassette)];
    assert all[..|all| - 1] == front + [TurnOn];
  }

  /**
   * Around one test, the recorder is on while the test runs exactly when
   * startTest inserted a cassette (if it was off before), and endTest
   * always leaves it off, whatever startTest did.
   */
  lemma SessionLifecycle<V>(before: seq<Call<V>>, methodExists: bool, name: Option<string>, options: seq<(string, V)>)
    requires !RecorderOn(before)
    ensures var o := Start(methodExists, name, options);
            RecorderOn(before + o.calls) <==> Activates(methodExists, name, options)
    ensures var o := Start(methodExists, name, options);
            !RecorderOn(before + o.calls + [TurnOff])
  {
    var calls := Start(methodExists, name, options).calls;
    StartShape(methodExists, name, options);
    if Activates(methodExists, name, options) {
      var front := ApplyAll(options).calls + StorageCalls(name);
      assert before + calls == (before + front) + [TurnOn, InsertCassette(name.value)];
      OnAfterInsert(before + front, name.value);
    } else {
      OnlyConfiguresKeepsPower(calls);
      RecorderOnUnchanged(before, calls);
    }
    var ended := before + calls + [TurnOff];
    assert ended[|ended| - 1] == TurnOff;
  }

  /** One more known option extends the calls of the loop by its setter call. */
  lemma ApplyStep<V>(options: seq<(string, V)>, i: nat, call: Call<V>)
    requires i < |options| && ApplyAll(options[..i]).failure == None
    requires Dispatch(options[i].0, options[i].1) == Ok(call)
    ensures ApplyAll(options[..i + 1]) == Applied(ApplyAll(options[..i]).calls + [call], None)
  {
    assert options[..i + 1] == options[..i] + [options[i]];
    ApplyAllAppend(options[..i], [options[i]]);
  }

  /** An unknown first option stops the loop at once, with no call made. */
  lemma ApplyAllHeadUnknown<V>(options: seq<(string, V)>, message: string)
    requires options != [] && Dispatch(options[0].0, options[0].1) == Err(message)
    ensures ApplyAll(options) == Applied([], Some(message))
  {
  }

  /** An unknown option at `i`, after `i` known ones, ends the loop with its exception. */
  lemma ApplyThrowsAt<V>(options: seq<(string, V)>, i: nat, message: string)
    requires i < |options| && ApplyAll(options[..i]).failure == None
    requires Dispatch(options[i].0, options[i].1) == Err(message)
    ensures ApplyAll(options) == Applied(ApplyAll(options[..i]).calls, Some(message))
  {
    var first, second := options[..i], options[i..];
    assert first + second == options;
    assert second[0] == options[i];
    ApplyAllHeadUnknown(second, message);
    ApplyAllAppend(first, second);
  }

  /** Once every option went through, startTest's calls continue with those that follow the options. */
  lemma StartConfigured<V>(name: Option<string>, options: seq<(string, V)>)
    requires ApplyAll(options).failure == None
    ensures Start(true, name, options)
            == StartOutcome(if IsPhpEmpty(name) then ReturnedTrue else ReturnedNull, ApplyAll(options).calls + AfterOptions(name))
  {
  }

  lemma Regroup<T>(a: seq<T>, b: seq<T>, c: seq<T>)
    ensures a + b + c == a + (b + c)
  {
  }

  /** The listener; its options are fixed when it is constructed. */
  class VcrTestListener<V> {
    var options: seq<(string, V)>

    constructor (options: seq<(string, V)>)
      ensures this.options == options
    {
      this.options := options;
    }

    /** `configure`: calls the setter the option names, or reports the exception an unknown name raises. */
    static method Configure(vcr: Recorder<V>, option: string, value: V) returns (thrown: Option<string>)
      modifies vcr
      ensures match Dispatch(option, value)
              case Ok(call) => thrown == None && vcr.calls == old(vcr.calls) + [call]
              case Err(message) => thrown == Some(message) && vcr.calls == old(vcr.calls)
    {
      thrown := None;
      if option == "mode" {
        vcr.SetMode(value);
      } else if option == "cassettePath" {
        vcr.SetCassettePath(value);
      } else if option == "requestMatchers" {
        vcr.EnableRequestMatchers(value);
      } else if option == "whiteList" {
        vcr.SetWhiteList(value);
      } else if option == "blackList" {
        vcr.SetBlackList(value);
      } else {
        thrown := Some(UnknownOptionMessage(option));
      }
    }

    /**
     * The `foreach` over the options: configures each in turn, and stops at
     * the first unknown one with the exception it raises.
     */
    method ApplyOptions(vcr: Recorder<V>) returns (thrown: Option<string>)
      modifies vcr
      ensures thrown == ApplyAll(options).failure
      ensures vcr.calls == old(vcr.calls) + ApplyAll(options).calls
    {
      thrown := None;
      var i := 0;
      while i < |options|
        invariant 0 <= i <= |options|
        invariant thrown == None
        invariant ApplyAll(options[..i]).failure == None
        invariant vcr.calls == old(vcr.calls) + ApplyAll(options[..i]).calls
      {
        var (option, value) := options[i];
        thrown := Configure(vcr, option, value);
        if thrown.Some? {
          ApplyThrowsAt(options, i, thrown.value);
          return;
        }
        ApplyStep(options, i, Dispatch(option, value).value);
        i := i + 1;
      }
      assert options[..i] == options;
    }

    /**
     * What startTest does once the options are applied: the JSON storage
     * switch for a ".json" cassette, then, unless the name is empty, turnOn
     * and the insertion of the cassette.
     */
    static method UseCassette(vcr: Recorder<V>, cassetteName: Option<string>) returns (r: StartResult)
      modifies vcr
      ensures r == if IsPhpEmpty(cassetteName) then ReturnedTrue else ReturnedNull
      ensures vcr.calls == old(vcr.calls) + AfterOptions(cassetteName)
    {
      if IsJsonName(cassetteName) {
        vcr.SetStorage("json");
      }
      ghost var stored := vcr.calls;
      assert stored == old(vcr.calls) + StorageCalls(cassetteName);
      if IsPhpEmpty(cassetteName) {
        assert InsertCalls<V>(cassetteName) == [];
        assert AfterOptions<V>(cassetteName) == StorageCalls(cassetteName);
        return ReturnedTrue;
      }
      vcr.TurnOn();
      vcr.InsertCassette(cassetteName.value);
      assert vcr.calls == stored + InsertCalls(cassetteName);
      r := ReturnedNull;
    }

    /** `startTest`: configures the recorder and, when the doc comment names a cassette, turns it on with that cassette. */
    method StartTest(vcr: Recorder<V>, methodExists: bool, docComment: Option<string>) returns (r: StartResult)
      modifies vcr
      ensures var o := StartTestSpec(methodExists, docComment, options);
              r == o.result && vcr.calls == old(vcr.calls) + o.calls
    {
      if !methodExists {
        return ReturnedNull;
      }
      var cassetteName := ArrayPop(ParseDocBlock(docComment));
      assert cassetteName == CassetteName(docComment);

      var thrown := ApplyOptions(vcr);
      if thrown.Some? {
        return Threw(thrown.value);
      }
      StartConfigured(cassetteName, options);
      r := UseCassette(vcr, cassetteName);
      Regroup(old(vcr.calls), ApplyAll(options).calls, AfterOptions(cassetteName));
    }

    /** `endTest`: turns the recorder off, and does nothing else. */
    method EndTest(vcr: Recorder<V>)
      modifies vcr
      ensures vcr.calls == old(vcr.calls) + [TurnOff]
    {
      vcr.TurnOff();
    }
  }
}
