/**
 * The PHP-VCR recorder as the listener sees it: a global singleton whose
 * configuration setters and on/off/cassette operations the listener calls.
 * What those operations do inside PHP-VCR is not modelled; each call is
 * recorded, in order, as an event of a trace.
 */
module Vcr {

  /** One call made to the recorder or to its configuration object. */
  datatype Call<V> =
    | SetMode(argument: V)
    | SetCassettePath(argument: V)
    | EnableRequestMatchers(argument: V)
    | SetWhiteList(argument: V)
    | SetBlackList(argument: V)
    | SetStorage(format: string)
    | TurnOn
    | InsertCassette(name: string)
    | TurnOff
  {
    /** The five configuration setters that a static option can select. */
    predicate IsSetter() {
      SetMode? || SetCassettePath? || EnableRequestMatchers? || SetWhiteList? || SetBlackList?
    }

    /** The option name under which the listener's options select this setter. */
    function OptionName(): string
      requires IsSetter()
    {
      match this
      case SetMode(_) => "mode"
      case SetCassettePath(_) => "cassettePath"
      case EnableRequestMatchers(_) => "requestMatchers"
      case SetWhiteList(_) => "whiteList"
      case SetBlackList(_) => "blackList"
    }
  }

  /**
   * Whether the recorder is on after the given calls, starting from a
   * recorder that is off: the last turnOn or turnOff decides.
   */
  function RecorderOn<V>(calls: seq<Call<V>>): bool
  {
    if calls == [] then false
    else match calls[|calls| - 1]
      case TurnOn => true
      case TurnOff => false
      case _ => RecorderOn(calls[..|calls| - 1])
  }

  /** Calls that leave the recorder's on/off state alone. */
  predicate KeepsPower<V>(calls: seq<Call<V>>) {
    forall k :: 0 <= k < |calls| ==> !calls[k].TurnOn? && !calls[k].TurnOff?
  }

  /** Appending calls that neither turn the recorder on nor off leaves it as it was. */
  lemma {:induction false} RecorderOnUnchanged<V>(before: seq<Call<V>>, after: seq<Call<V>>)
    requires KeepsPower(after)
    ensures RecorderOn(before + after) == RecorderOn(before)
    decreases |after|
  {
    if after != [] {
      var all := before + after;
      var last := after[|after| - 1];
      assert all[..|all| - 1] == before + after[..|after| - 1];
      assert all[|all| - 1] == last;
      assert !last.TurnOn? && !last.TurnOff?;
      RecorderOnUnchanged(before, after[..|after| - 1]);
    } else {
      assert before + after == before;
    }
  }

  /** The recorder singleton, reduced to the trace of calls made to it. */
  class Recorder<V> {
    var calls: seq<Call<V>>

    constructor ()
      ensures calls == []
    {
      calls := [];
    }

    method SetMode(mode: V)
      modifies this
      ensures calls == old(calls) + [Call.SetMode(mode)]
    {
      calls := calls + [Call.SetMode(mode)];
    }

    method SetCassettePath(path: V)
      modifies this
      ensures calls == old(calls) + [Call.SetCassettePath(path)]
    {
      calls := calls + [Call.SetCassettePath(path)];
    }

    method EnableRequestMatchers(matchers: V)
      modifies this
      ensures calls == old(calls) + [Call.EnableRequestMatchers(matchers)]
    {
      calls := calls + [Call.EnableRequestMatchers(matchers)];
    }

    method SetWhiteList(paths: V)
      modifies this
      ensures calls == old(calls) + [Call.SetWhiteList(paths)]
    {
      calls := calls + [Call.SetWhiteList(paths)];
    }

    method SetBlackList(paths: V)
      modifies this
      ensures calls == old(calls) + [Call.SetBlackList(paths)]
    {
      calls := calls + [Call.SetBlackList(paths)];
    }

    method SetStorage(format: string)
      modifies this
      ensures calls == old(calls) + [Call.SetStorage(format)]
    {
      calls := calls + [Call.SetStorage(format)];
    }

    method TurnOn()
      modifies this
      ensures calls == old(calls) + [Call.TurnOn]
    {
      calls := calls + [Call.TurnOn];
    }

    method InsertCassette(name: string)
      modifies this
      ensures calls == old(calls) + [Call.InsertCassette(name)]
    {
      calls := calls + [Call.InsertCassette(name)];
    }

    method TurnOff()
      modifies this
      ensures calls == old(calls) + [Call.TurnOff]
    {
      calls := calls + [Call.TurnOff];
    }
  }
}
