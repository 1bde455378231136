/** JSON values and the delta merge of app/state.py. */
module DeepMerge {
  import opened Wrappers

  datatype Json =
    | Null
    | Bool(flag: bool)
    | Number(number: real)
    | Str(text: string)
    | List(items: seq<Json>)
    | Obj(fields: map<string, Json>)

  /** What a key bound to `t` is bound to after an update that binds it to `u`: only two objects are merged. */
  function Merge(t: Json, u: Json): Json
    decreases u
  {
    if t.Obj? && u.Obj? then
      Obj(map k | k in t.fields.Keys + u.fields.Keys ::
            if k !in u.fields then t.fields[k]
            else if k !in t.fields then u.fields[k]
            else Merge(t.fields[k], u.fields[k]))
    else u
  }

  /** The target after the keys in `done` have been visited. */
  function MergedSoFar(target: map<string, Json>, update: map<string, Json>, done: set<string>): map<string, Json>
    requires done <= update.Keys
  {
    map k | k in target.Keys + done ::
      if k !in done then target[k] else if k !in target then update[k] else Merge(target[k], update[k])
  }

  lemma MergedOneMore(target: map<string, Json>, update: map<string, Json>, done: set<string>, key: string)
    requires done <= update.Keys && key in update && key !in done
    ensures var before := MergedSoFar(target, update, done);
            && (key in before <==> key in target)
            && (key in target ==> before[key] == target[key])
            && MergedSoFar(target, update, done + {key})
               == before[key := if key in target then Merge(target[key], update[key]) else update[key]]
  {
  }

  lemma MergedAll(target: map<string, Json>, update: map<string, Json>)
    ensures Obj(MergedSoFar(target, update, update.Keys)) == Merge(Obj(target), Obj(update))
  {
    assert MergedSoFar(target, update, update.Keys) == Merge(Obj(target), Obj(update)).fields;
  }

  /** `deep_merge` itself, key by key; the order of the keys does not matter. */
  method DeepMergeInto(target: map<string, Json>, update: map<string, Json>) returns (merged: map<string, Json>)
    ensures Obj(merged) == Merge(Obj(target), Obj(update))
    decreases Obj(update), 1
  {
    merged := target;
    var rest := update.Keys;
    while rest != {}
      invariant rest <= update.Keys
      invariant merged == MergedSoFar(target, update, update.Keys - rest)
      decreases rest
    {
      var key :| key in rest;
      ghost var done := update.Keys - rest;
      rest := rest - {key};
      assert update.Keys - rest == done + {key};
      merged := MergeKey(target, update, done, merged, key);
    }
    assert update.Keys - rest == update.Keys;
    MergedAll(target, update);
  }

  /** The body of the loop. */
  method MergeKey(ghost target: map<string, Json>, update: map<string, Json>, ghost done: set<string>,
                  before: map<string, Json>, key: string)
    returns (merged: map<string, Json>)
    requires done <= update.Keys && key in update && key !in done && before == MergedSoFar(target, update, done)
    ensures merged == MergedSoFar(target, update, done + {key})
    decreases Obj(update), 0
  {
    assert update[key] == Obj(update).fields[key];
    MergedOneMore(target, update, done, key);
    var value := MergeValue(if key in before then Some(before[key]) else None, update[key]);
    merged := before[key := value];
  }

  method MergeValue(current: Option<Json>, value: Json) returns (merged: Json)
    ensures merged == if current.Some? then Merge(current.value, value) else value
    decreases value, 2
  {
    if value.Obj? && current.Some? && current.value.Obj? {
      var inner := DeepMergeInto(current.value.fields, value.fields);
      merged := Obj(inner);
    } else {
      merged := value;
    }
  }

  // --------------------------------------------------------------- path law

  function At(j: Json, path: seq<string>): Option<Json>
    decreases |path|
  {
    if path == [] then Some(j)
    else if j.Obj? && path[0] in j.fields then At(j.fields[path[0]], path[1..])
    else None
  }

  /** The update puts something other than an object at a proper ancestor of the path. */
  ghost predicate CutOff(u: Json, path: seq<string>) {
    exists n :: 0 <= n < |path| && At(u, path[..n]).Some? && !At(u, path[..n]).value.Obj?
  }

  lemma CutOffBelow(u: Json, path: seq<string>)
    requires path != [] && u.Obj?
    ensures path[0] in u.fields ==> (CutOff(u, path) <==> CutOff(u.fields[path[0]], path[1..]))
    ensures path[0] !in u.fields ==> !CutOff(u, path)
  {
    forall n | 0 < n < |path|
      ensures path[..n][1..] == path[1..][..n - 1] && path[..n][0] == path[0]
    {
    }
    if path[0] in u.fields {
      var v, rest := u.fields[path[0]], path[1..];
      if CutOff(u, path) {
        var n :| 0 <= n < |path| && At(u, path[..n]).Some? && !At(u, path[..n]).value.Obj?;
        assert At(v, rest[..n - 1]) == At(u, path[..n]);
      }
      if CutOff(v, rest) {
        var n :| 0 <= n < |rest| && At(v, rest[..n]).Some? && !At(v, rest[..n]).value.Obj?;
        assert path[..n + 1][1..] == rest[..n];
        assert At(u, path[..n + 1]) == At(v, rest[..n]);
      }
    } else {
      forall n | 0 <= n < |path| ensures !(At(u, path[..n]).Some? && !At(u, path[..n]).value.Obj?) {
      }
    }
  }

  /**
    The path law: where the update sets the path, its value is there (merged into the old one if there is one);
    where it sets an ancestor to something else than an object, nothing is there; elsewhere the old value stays.
  */
  lemma {:induction false} PathLaw(t: Json, u: Json, path: seq<string>)
    ensures At(Merge(t, u), path) ==
            match At(u, path)
            case Some(v) => Some(if At(t, path).Some? then Merge(At(t, path).value, v) else v)
            case None => if CutOff(u, path) then None else At(t, path)
    decreases |path|
  {
    if path == [] {
    } else {
      if !u.Obj? {
        assert path[..0] == [] && At(u, path[..0]) == Some(u);
        assert CutOff(u, path);
      } else {
        CutOffBelow(u, path);
        if t.Obj? && path[0] in t.fields && path[0] in u.fields {
          PathLaw(t.fields[path[0]], u.fields[path[0]], path[1..]);
        } else if path[0] in u.fields {
          Uncut(u.fields[path[0]], path[1..]);
        }
      }
    }
  }

  lemma {:induction false} Uncut(v: Json, path: seq<string>)
    ensures CutOff(v, path) ==> At(v, path).None?
    decreases |path|
  {
    if path != [] && v.Obj? {
      CutOffBelow(v, path);
      if path[0] in v.fields { Uncut(v.fields[path[0]], path[1..]); }
    }
  }

  // ---------------------------------------------------------------- algebra

  lemma EmptyUpdate(t: Json)
    requires t.Obj?
    ensures Merge(t, Obj(map[])) == t && Merge(Obj(map[]), t) == t
  {
  }

  lemma {:induction false} MergeIdempotent(t: Json, u: Json)
    ensures Merge(Merge(t, u), u) == Merge(t, u)
    decreases u
  {
    if t.Obj? && u.Obj? {
      forall k | k in t.fields && k in u.fields
        ensures Merge(Merge(t.fields[k], u.fields[k]), u.fields[k]) == Merge(t.fields[k], u.fields[k])
      {
        MergeIdempotent(t.fields[k], u.fields[k]);
      }
      forall k | k in u.fields && k !in t.fields ensures Merge(u.fields[k], u.fields[k]) == u.fields[k] {
        MergeSelf(u.fields[k]);
      }
      assert Merge(Merge(t, u), u).fields == Merge(t, u).fields;
    } else if u.Obj? {
      MergeSelf(u);
    }
  }

  lemma {:induction false} MergeSelf(u: Json)
    ensures Merge(u, u) == u
    decreases u
  {
    if u.Obj? {
      forall k | k in u.fields ensures Merge(u.fields[k], u.fields[k]) == u.fields[k] {
        MergeSelf(u.fields[k]);
      }
      assert Merge(u, u).fields == u.fields;
    }
  }

  /** Every key of `t` is overwritten by `c`, at every depth where both have objects. */
  predicate Covers(c: Json, t: Json)
    requires c.Obj? && t.Obj?
    decreases c
  {
    forall k :: k in t.fields ==>
      k in c.fields && (t.fields[k].Obj? && c.fields[k].Obj? ==> Covers(c.fields[k], t.fields[k]))
  }

  lemma {:induction false} CoversIff(c: Json, t: Json)
    requires c.Obj? && t.Obj?
    ensures Merge(t, c) == c <==> Covers(c, t)
    decreases c
  {
    forall k | k in t.fields && k in c.fields && t.fields[k].Obj? && c.fields[k].Obj?
      ensures Merge(t.fields[k], c.fields[k]) == c.fields[k] <==> Covers(c.fields[k], t.fields[k])
    {
      CoversIff(c.fields[k], t.fields[k]);
    }
    if Covers(c, t) {
      assert Merge(t, c).fields == c.fields;
    } else if Merge(t, c) == c {
      assert forall k :: k in t.fields ==> k in Merge(t, c).fields;
    }
  }

  /**
    Wherever the first delta replaces an object by something else and the second brings an object back, that
    object covers the original one.
  */
  predicate Mergeable(t: Json, b: Json, c: Json)
    decreases b
  {
    if !t.Obj? || !c.Obj? then true
    else if b.Obj? then
      forall k :: k in b.fields && k in t.fields && k in c.fields ==> Mergeable(t.fields[k], b.fields[k], c.fields[k])
    else Covers(c, t)
  }

  /** Two deltas may be combined before they are applied exactly when they are Mergeable. */
  lemma {:induction false} MergeAssociative(t: Json, b: Json, c: Json)
    ensures Merge(Merge(t, b), c) == Merge(t, Merge(b, c)) <==> Mergeable(t, b, c)
    decreases b
  {
    if t.Obj? && c.Obj? {
      if b.Obj? {
        var left, right := Merge(Merge(t, b), c), Merge(t, Merge(b, c));
        forall k | k in b.fields && k in t.fields && k in c.fields
          ensures left.fields[k] == right.fields[k] <==> Mergeable(t.fields[k], b.fields[k], c.fields[k])
        {
          MergeAssociative(t.fields[k], b.fields[k], c.fields[k]);
        }
        assert left.fields.Keys == right.fields.Keys;
        forall k | k in left.fields && !(k in b.fields && k in t.fields && k in c.fields)
          ensures left.fields[k] == right.fields[k]
        {
        }
        if Mergeable(t, b, c) {
          assert left.fields == right.fields;
        } else {
          var k :| k in b.fields && k in t.fields && k in c.fields && !Mergeable(t.fields[k], b.fields[k], c.fields[k]);
          assert left.fields[k] != right.fields[k];
        }
      } else {
        CoversIff(c, t);
      }
    }
  }

  /** In particular when no key that the first delta sets to a non-object is an object on both other sides. */
  predicate NoResurrection(t: Json, b: Json, c: Json)
    decreases b
  {
    t.Obj? && c.Obj? ==>
      && b.Obj?
      && forall k :: k in b.fields && k in t.fields && k in c.fields ==>
          NoResurrection(t.fields[k], b.fields[k], c.fields[k])
  }

  lemma {:induction false} NoResurrectionIsMergeable(t: Json, b: Json, c: Json)
    requires NoResurrection(t, b, c)
    ensures Mergeable(t, b, c)
    decreases b
  {
    if t.Obj? && c.Obj? {
      forall k | k in b.fields && k in t.fields && k in c.fields
        ensures Mergeable(t.fields[k], b.fields[k], c.fields[k])
      {
        NoResurrectionIsMergeable(t.fields[k], b.fields[k], c.fields[k]);
      }
    }
  }
}
