/** The setup wizard's recursive merge of configuration dictionaries, characterised by paths. */
module ConfigMerge {
  import opened Options

  /** A configuration value: a scalar or list, opaque here, or a dictionary. */
  datatype Value = Leaf(content: int) | Dict(entries: map<string, Value>)

  /** Sub-dictionaries merge key by key; anything else in the overlay replaces what the base has. */
  function Merge(base: map<string, Value>, overlay: map<string, Value>): map<string, Value>
    decreases Dict(overlay)
  {
    map key | key in base.Keys + overlay.Keys ::
      if key !in overlay then base[key]
      else if key in base && base[key].Dict? && overlay[key].Dict?
      then Dict(Merge(base[key].entries, overlay[key].entries))
      else overlay[key]
  }

  /** The loop over the overlay's items, on a copy of the base. */
  method DeepMerge(base: map<string, Value>, overlay: map<string, Value>) returns (result: map<string, Value>)
    ensures result == Merge(base, overlay)
    decreases Dict(overlay)
  {
    result := base;
    var todo := overlay.Keys;
    while todo != {}
      invariant todo <= overlay.Keys && result.Keys == base.Keys + (overlay.Keys - todo)
      invariant forall key :: key in result ==>
                  result[key] == if key in todo || key !in overlay then base[key] else Merge(base, overlay)[key]
    {
      var key :| key in todo;
      var value := overlay[key];
      if key in result && result[key].Dict? && value.Dict? {
        assert overlay[key] == Dict(value.entries);
        var merged := DeepMerge(result[key].entries, value.entries);
        result := result[key := Dict(merged)];
      } else {
        result := result[key := value];
      }
      todo := todo - {key};
    }
  }

  /** What a value holds at a path. */
  function At(value: Value, path: seq<string>): Option<Value> {
    if path == [] then Some(value)
    else if value.Dict? && path[0] in value.entries then At(value.entries[path[0]], path[1..])
    else None
  }

  /** The overlay has a scalar or list at some proper prefix of the path. */
  lemma AtIs(value: Value, key: string, rest: seq<string>)
    ensures At(value, []) == Some(value)
    ensures At(value, [key] + rest) ==
            if value.Dict? && key in value.entries then At(value.entries[key], rest) else None
  {
    assert ([key] + rest)[1..] == rest;
  }

  predicate CutOff(overlay: Value, path: seq<string>) {
    if overlay.Leaf? then path != []
    else path != [] && path[0] in overlay.entries && CutOff(overlay.entries[path[0]], path[1..])
  }

  function MergeValues(base: Value, overlay: Value): Value {
    if base.Dict? && overlay.Dict? then Dict(Merge(base.entries, overlay.entries)) else overlay
  }

  /** What the merge holds at every path: the two sides merged where both have something, the only side that
      has something otherwise, and nothing below a scalar of the overlay. */
  lemma {:induction false} MergeAtPath(base: Value, overlay: Value, path: seq<string>)
    ensures At(MergeValues(base, overlay), path) ==
            match (At(base, path), At(overlay, path))
            case (None, o) => o
            case (Some(b), Some(o)) => Some(MergeValues(b, o))
            case (Some(b), None) => if CutOff(overlay, path) then None else Some(b)
    decreases path
  {
    if path == [] || base.Leaf? || overlay.Leaf? {
    } else {
      var key := path[0];
      if key in base.entries && key in overlay.entries {
        assert Merge(base.entries, overlay.entries)[key] == MergeValues(base.entries[key], overlay.entries[key]);
        MergeAtPath(base.entries[key], overlay.entries[key], path[1..]);
      }
    }
  }

  /** The overlay wins wherever it sets a leaf, and wherever it replaces something that is not a dictionary. */
  lemma OverlayWins(base: Value, overlay: Value, path: seq<string>)
    requires At(overlay, path).Some?
    requires At(overlay, path).value.Leaf? || At(base, path).None? || At(base, path).value.Leaf?
    ensures At(MergeValues(base, overlay), path) == At(overlay, path)
  {
    MergeAtPath(base, overlay, path);
  }

  /** Every base path that the overlay does not cover survives, and only those. */
  lemma UncoveredSurvivesIff(base: Value, overlay: Value, path: seq<string>)
    requires At(base, path).Some? && At(overlay, path).None?
    ensures At(MergeValues(base, overlay), path) == At(base, path) <==> !CutOff(overlay, path)
  {
    MergeAtPath(base, overlay, path);
  }

  lemma EmptyIsIdentity(entries: map<string, Value>)
    ensures Merge(entries, map[]) == entries && Merge(map[], entries) == entries
  {
  }

  /** Running the wizard twice with the same answers changes nothing the second time. */
  lemma {:induction false} MergeIdempotent(base: Value, overlay: Value)
    ensures MergeValues(MergeValues(base, overlay), overlay) == MergeValues(base, overlay)
    decreases overlay
  {
    if base.Dict? && overlay.Dict? {
      var once := Merge(base.entries, overlay.entries);
      var twice := Merge(once, overlay.entries);
      forall key | key in once ensures twice[key] == once[key] {
        if key in overlay.entries {
          if key in base.entries {
            MergeIdempotent(base.entries[key], overlay.entries[key]);
          }
          MergeSelf(overlay.entries[key]);
        }
      }
      assert twice.Keys == once.Keys;
    } else if overlay.Dict? {
      MergeSelf(overlay);
    }
  }

  lemma {:induction false} MergeSelf(value: Value)
    ensures MergeValues(value, value) == value
    decreases value
  {
    if value.Leaf? {
    } else {
      forall key | key in value.entries ensures Merge(value.entries, value.entries)[key] == value.entries[key] {
        MergeSelf(value.entries[key]);
      }
    }
  }
}
