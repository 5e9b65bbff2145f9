/** JSON configuration values and the recursive overlay merge. */
module ConfigOverlay {
  import opened Options

  datatype Json =
    | Null
    | Bool(b: bool)
    | Num(literal: string)
    | Str(s: string)
    | Arr(items: seq<Json>)
    | Obj(fields: map<string, Json>)

  type Object = map<string, Json>

  /** What the merge leaves under one key of both objects or of one of them. */
  function Merge(target: Object, source: Object): (merged: Object)
    ensures merged.Keys == target.Keys + source.Keys
    decreases Obj(source)
  {
    map key | key in target.Keys + source.Keys ::
      if key !in source then target[key]
      else if key in target && target[key].Obj? && source[key].Obj?
      then (assert source[key] < Obj(source); Obj(Merge(target[key].fields, source[key].fields)))
      else source[key]
  }

  lemma KeptFromTarget(target: Object, source: Object, key: string)
    requires key in target && key !in source
    ensures Merge(target, source)[key] == target[key]
  {
  }

  /** One round of the loop: a recursive merge if both sides hold an object, the source's value otherwise. */
  method MergeKey(target: Object, source: Object, key: string) returns (value: Json)
    requires key in source
    ensures value == Merge(target, source)[key]
    decreases Obj(source), 0
  {
    if key in target && target[key].Obj? && source[key].Obj? {
      assert source[key] < Obj(source);
      var inner := DeepMerge(target[key].fields, source[key].fields);
      return Obj(inner);
    }
    return source[key];
  }

  /** The loop of the source: a copy of the target, overwritten key by key. */
  method DeepMerge(target: Object, source: Object) returns (result: Object)
    ensures result == Merge(target, source)
    decreases Obj(source), 1
  {
    result := target;
    var rest := source.Keys;
    while rest != {}
      invariant rest <= source.Keys
      invariant result.Keys == target.Keys + (source.Keys - rest)
      invariant forall key :: key in source && key !in rest ==> result[key] == Merge(target, source)[key]
      invariant forall key :: key in target && (key !in source || key in rest) ==> result[key] == target[key]
      decreases rest
    {
      var key :| key in rest;
      rest := rest - {key};
      var value := MergeKey(target, source, key);
      result := result[key := value];
    }
    forall key | key in result ensures result[key] == Merge(target, source)[key] {
      if key !in source {
        KeptFromTarget(target, source, key);
      }
    }
  }

  // ----- When the overlay already says everything

  /** `w` has every key of `p`, and so have the objects that both hold under one key. */
  ghost predicate Covers(w: Object, p: Object)
    decreases Obj(p)
  {
    p.Keys <= w.Keys &&
    forall key :: key in p && p[key].Obj? && w[key].Obj? ==>
                    (assert p[key] < Obj(p); Covers(w[key].fields, p[key].fields))
  }

  /** Merging changes nothing if and only if the overlay covers the base. */
  lemma {:induction false} MergeIsOverlayExactly(p: Object, w: Object)
    ensures Merge(p, w) == w <==> Covers(w, p)
    decreases Obj(p)
  {
    forall key | key in p && key in w && p[key].Obj? && w[key].Obj?
      ensures Merge(p[key].fields, w[key].fields) == w[key].fields <==> Covers(w[key].fields, p[key].fields)
    {
      assert p[key] < Obj(p);
      MergeIsOverlayExactly(p[key].fields, w[key].fields);
    }
    if Merge(p, w) == w {
      assert p.Keys <= w.Keys;
      forall key | key in p && p[key].Obj? && w[key].Obj? ensures Covers(w[key].fields, p[key].fields) {
        assert Merge(p, w)[key] == w[key];
      }
    }
    if Covers(w, p) {
      assert Merge(p, w).Keys == w.Keys;
      forall key | key in w ensures Merge(p, w)[key] == w[key] {
      }
    }
  }

  lemma {:induction false} MergeCoversBase(p: Object, r: Object)
    ensures Covers(Merge(p, r), p)
    decreases Obj(p)
  {
    forall key | key in p && p[key].Obj? && Merge(p, r)[key].Obj?
      ensures Covers(Merge(p, r)[key].fields, p[key].fields)
    {
      assert p[key] < Obj(p);
      if key in r {
        MergeCoversBase(p[key].fields, r[key].fields);
      } else {
        CoversItself(p[key].fields);
      }
    }
  }

  lemma {:induction false} CoversItself(p: Object)
    ensures Covers(p, p)
    decreases Obj(p)
  {
    forall key | key in p && p[key].Obj? ensures Covers(p[key].fields, p[key].fields) {
      assert p[key] < Obj(p);
      CoversItself(p[key].fields);
    }
  }

  /** merge(p, merge(p, r)) == merge(p, r) */
  lemma BaseIsAbsorbed(p: Object, r: Object)
    ensures Merge(p, Merge(p, r)) == Merge(p, r)
  {
    MergeCoversBase(p, r);
    MergeIsOverlayExactly(p, Merge(p, r));
  }

  /** merge(merge(p, r), r) == merge(p, r) */
  lemma {:induction false} OverlayIsAbsorbed(p: Object, r: Object)
    ensures Merge(Merge(p, r), r) == Merge(p, r)
    decreases Obj(r)
  {
    var m := Merge(p, r);
    assert Merge(m, r).Keys == m.Keys;
    forall key | key in m ensures Merge(m, r)[key] == m[key] {
      if key in r && r[key].Obj? && m[key].Obj? {
        assert r[key] < Obj(r);
        if key in p && p[key].Obj? {
          OverlayIsAbsorbed(p[key].fields, r[key].fields);
        } else {
          CoversItself(r[key].fields);
          MergeIsOverlayExactly(r[key].fields, r[key].fields);
        }
      }
    }
  }

  // ----- Reading a path

  function At(j: Json, path: seq<string>): Option<Json> {
    if path == [] then Some(j)
    else if j.Obj? && path[0] in j.fields then At(j.fields[path[0]], path[1..])
    else None
  }

  predicate ObjectAt(j: Object, path: seq<string>) {
    At(Obj(j), path).Some? && At(Obj(j), path).value.Obj?
  }

  lemma AtOneKey(j: Object, path: seq<string>)
    requires path != []
    ensures path[1..] == [] && path[0] in j ==> At(Obj(j), path) == Some(j[path[0]])
  {
  }

  /** What the source holds at `path` is read back unchanged, all of it, unless both sides hold an object there. */
  lemma {:induction false} SourceWins(target: Object, source: Object, path: seq<string>)
    requires path != [] && At(Obj(source), path).Some? && !(ObjectAt(source, path) && ObjectAt(target, path))
    ensures At(Obj(Merge(target, source)), path) == At(Obj(source), path)
    decreases |path|
  {
    var key := path[0];
    AtOneKey(target, path);
    AtOneKey(source, path);
    if key in target && target[key].Obj? && source[key].Obj? {
      if path[1..] != [] {
        SourceWins(target[key].fields, source[key].fields, path[1..]);
      }
    }
  }

  /** Where both hold an object the result is an object with the keys of both. */
  lemma {:induction false} ObjectsJoin(target: Object, source: Object, path: seq<string>)
    requires path != [] && ObjectAt(target, path) && ObjectAt(source, path)
    ensures ObjectAt(Merge(target, source), path)
    ensures At(Obj(Merge(target, source)), path).value.fields.Keys
         == At(Obj(target), path).value.fields.Keys + At(Obj(source), path).value.fields.Keys
    decreases |path|
  {
    var key := path[0];
    if path[1..] != [] {
      assert At(Obj(target), path) == At(target[key], path[1..]) && At(Obj(source), path) == At(source[key], path[1..]);
      assert target[key].Obj? && source[key].Obj?;
      ObjectsJoin(target[key].fields, source[key].fields, path[1..]);
    }
  }

  /** Every value of the source that is not an object is read back unchanged from the merge. */
  lemma SourceLeafReadBack(target: Object, source: Object, path: seq<string>)
    requires path != [] && At(Obj(source), path).Some? && !At(Obj(source), path).value.Obj?
    ensures At(Obj(Merge(target, source)), path) == At(Obj(source), path)
  {
    SourceWins(target, source, path);
  }

  /** The source says nothing at `path`: it stops at an object that lacks the next key. */
  predicate SilentAt(source: Object, path: seq<string>)
    decreases |path|
  {
    path != [] && (path[0] !in source || (source[path[0]].Obj? && SilentAt(source[path[0]].fields, path[1..])))
  }

  /** Where the source is silent the target's value shows through. */
  lemma {:induction false} TargetShowsThrough(target: Object, source: Object, path: seq<string>)
    requires SilentAt(source, path) && At(Obj(target), path).Some?
    ensures At(Obj(Merge(target, source)), path) == At(Obj(target), path)
    decreases |path|
  {
    var key := path[0];
    if key in source {
      assert path[1..] != [];
      TargetShowsThrough(target[key].fields, source[key].fields, path[1..]);
    }
  }
}
