/** Named properties of an object in fast mode, in insertion order (src/objects/js_object.rs). */
module Properties {
  import opened Options

  datatype Property<V> = Property(name: string, value: V)

  /** Replaces the value of the property where it stands, or appends a new property. */
  function SetProperty<V>(properties: seq<Property<V>>, name: string, v: V): seq<Property<V>> {
    if properties == [] then [Property(name, v)]
    else if properties[0].name == name then [Property(name, v)] + properties[1..]
    else [properties[0]] + SetProperty(properties[1..], name, v)
  }

  function GetProperty<V>(properties: seq<Property<V>>, name: string): Option<V> {
    if properties == [] then None
    else if properties[0].name == name then Some(properties[0].value)
    else GetProperty(properties[1..], name)
  }

  ghost predicate DistinctNames<V>(properties: seq<Property<V>>) {
    forall i, j :: 0 <= i < j < |properties| ==> properties[i].name != properties[j].name
  }

  lemma {:induction false} SetNewProperty<V>(properties: seq<Property<V>>, name: string, v: V)
    requires forall i :: 0 <= i < |properties| ==> properties[i].name != name
    ensures SetProperty(properties, name, v) == properties + [Property(name, v)]
  {
    if properties != [] { SetNewProperty(properties[1..], name, v); }
  }

  /** Setting a property changes the value found for its name and for no other. */
  lemma {:induction false} GetAfterSet<V>(properties: seq<Property<V>>, name: string, v: V, other: string)
    ensures GetProperty(SetProperty(properties, name, v), other) ==
            if other == name then Some(v) else GetProperty(properties, other)
  {
    if properties != [] {
      var r := SetProperty(properties, name, v);
      if properties[0].name == name {
        assert r[1..] == properties[1..];
      } else {
        assert r[1..] == SetProperty(properties[1..], name, v);
        GetAfterSet(properties[1..], name, v, other);
      }
    }
  }

  lemma {:induction false} SetKeepsNames<V>(properties: seq<Property<V>>, name: string, v: V)
    ensures |SetProperty(properties, name, v)| >= |properties|
    ensures forall i :: 0 <= i < |properties| ==> SetProperty(properties, name, v)[i].name == properties[i].name
    ensures forall i :: |properties| <= i < |SetProperty(properties, name, v)| ==>
              SetProperty(properties, name, v)[i].name == name
  {
    if properties != [] && properties[0].name != name {
      SetKeepsNames(properties[1..], name, v);
      forall i | 0 <= i < |properties| ensures SetProperty(properties, name, v)[i].name == properties[i].name {
        if i > 0 { assert properties[i] == properties[1..][i - 1]; }
      }
    }
  }

  lemma {:induction false} SetKeepsNamesDistinct<V>(properties: seq<Property<V>>, name: string, v: V)
    requires DistinctNames(properties)
    ensures DistinctNames(SetProperty(properties, name, v))
  {
    if k :| 0 <= k < |properties| && properties[k].name == name {
      SetKeepsNames(properties, name, v);
      SetKeepsLength(properties, k, name, v);
    } else {
      SetNewProperty(properties, name, v);
    }
  }

  lemma {:induction false} SetKeepsLength<V>(properties: seq<Property<V>>, k: nat, name: string, v: V)
    requires k < |properties| && properties[k].name == name
    ensures |SetProperty(properties, name, v)| == |properties|
  {
    if properties[0].name != name { SetKeepsLength(properties[1..], k - 1, name, v); }
  }
}
