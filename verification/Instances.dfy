/** Which configured instance of a component the bootstrap takes: selectBootstrapInstance of service/setup.go. */
module Instances {
  import opened Text

  datatype Choice<T> = Nothing | One(name: string, instance: T) | Ambiguous(names: seq<string>)

  /**
   The instance called default, or else the only one there is; none at all is no error, and several without a default
   are one that names them all in order. The map is walked in an order of its own, which does not show.
   */
  method SelectInstance<T>(instances: map<string, T>) returns (choice: Choice<T>)
    ensures choice.Nothing? <==> instances == map[]
    ensures "default" in instances ==> choice == One("default", instances["default"])
    ensures "default" !in instances && |instances| == 1 ==>
              choice.One? && instances == map[choice.name := choice.instance]
    ensures "default" !in instances && |instances| > 1 ==> choice.Ambiguous?
    ensures choice.Ambiguous? ==> StrictlySorted(choice.names) && forall k :: k in choice.names <==> k in instances
  {
    if |instances| == 0 {
      return Nothing;
    }
    if "default" in instances {
      return One("default", instances["default"]);
    }
    if |instances| == 1 {
      var name :| name in instances;
      OnlyKey(instances, name);
      return One(name, instances[name]);
    }
    var names, left := [], instances.Keys;
    while left != {}
      invariant left <= instances.Keys && (forall k :: k in names <==> k in instances && k !in left)
      invariant forall i, j :: 0 <= i < j < |names| ==> names[i] != names[j]
      decreases |left|
    {
      var name :| name in left;
      names, left := names + [name], left - {name};
    }
    SortNamesSorts(names);
    forall k ensures k in SortNames(names) <==> k in instances { SortNamesElements(names, k); }
    return Ambiguous(SortNames(names));
  }

  lemma OnlyKey<T>(instances: map<string, T>, name: string)
    requires name in instances && |instances| == 1
    ensures instances == map[name := instances[name]]
  {
    assert |instances.Keys - {name}| == 0;
    assert instances.Keys == {name};
  }
}
