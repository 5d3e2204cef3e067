/** The content upgrade to version 1.4: the `makeDiscussion` flag becomes the
    `mode` parameter. */
module Upgrades {
  import opened Base

  /** The content parameters, an object the upgrade changes in place. */
  class Parameters {
    var props: map<string, Value>

    constructor(props: map<string, Value>)
      ensures this.props == props
    {
      this.props := props;
    }
  }

  /** One call of the `finished` callback. */
  datatype FinishedCall = FinishedCall(error: Value, parameters: Parameters?, extras: Value)

  /** The parameters after the upgrade: `mode` is "discussion" when
      `makeDiscussion` was truthy and "category" otherwise, `makeDiscussion`
      is gone, and every other parameter is kept. */
  function Upgraded(props: map<string, Value>): (r: map<string, Value>)
    ensures r.Keys == props.Keys + {"mode"} - {"makeDiscussion"}
    ensures r["mode"] == Str(if Truthy(Get(props, "makeDiscussion")) then "discussion" else "category")
    ensures forall k :: k in props && k != "mode" && k != "makeDiscussion" ==> r[k] == props[k]
  {
    var mode := if Truthy(Get(props, "makeDiscussion")) then "discussion" else "category";
    props["mode" := Str(mode)] - {"makeDiscussion"}
  }

  /** Upgrading twice is upgrading once followed by the constant mode
      "category": the flag is gone after the first run. */
  lemma UpgradeTwice(props: map<string, Value>)
    ensures Upgraded(Upgraded(props)) == Upgraded(props)["mode" := Str("category")]
  {
    var once := Upgraded(props);
    assert Get(once, "makeDiscussion") == Undefined;
  }

  /** The upgrade hook: the parameters, when present, are upgraded in place,
      and `finished` is called exactly once, without an error, with the same
      parameters object and extras. */
  method UpgradeTo14(parameters: Parameters?, extras: Value) returns (finished: seq<FinishedCall>)
    modifies parameters
    ensures finished == [FinishedCall(Null, parameters, extras)]
    ensures parameters != null ==> parameters.props == Upgraded(old(parameters.props))
  {
    if parameters != null {
      var mode := if Truthy(Get(parameters.props, "makeDiscussion")) then "discussion" else "category";
      parameters.props := parameters.props["mode" := Str(mode)];
      parameters.props := parameters.props - {"makeDiscussion"};
    }
    finished := [FinishedCall(Null, parameters, extras)];
  }
}
