/** Merging a freshly generated language file with the existing one. */
module JsonMerge {

  import opened Wrappers

  /** A JSON value as a value: everything but an object is a leaf. */
  datatype Json =
    | Leaf(text: string)
    | Dict(entries: map<string, Json>)

  /** What merging `source` into `target` means. */
  function Merged(source: Json, target: Json): (r: Json)
    requires source.Dict? && target.Dict?
    ensures r.Dict? && r.entries.Keys == source.entries.Keys + target.entries.Keys
    decreases source
  {
    var s, t := source.entries, target.entries;
    Dict(map k | k in s.Keys + t.Keys ::
      if k !in t then s[k]
      else if k in s && s[k].Dict? && t[k].Dict? then Merged(s[k], t[k])
      else t[k])
  }

  // ----- what a merge keeps and adds -----

  /** The value at a path of keys. */
  function At(j: Json, path: seq<string>): Option<Json>
    decreases |path|
  {
    if path == [] then Some(j)
    else if j.Dict? && path[0] in j.entries then At(j.entries[path[0]], path[1..])
    else None
  }

  /** Some step of the path, the end included, stands on a leaf. */
  predicate Blocked(j: Json, path: seq<string>)
    decreases |path|
  {
    j.Leaf? || (path != [] && path[0] in j.entries && Blocked(j.entries[path[0]], path[1..]))
  }

  /** Everything the merge does, path by path: what the target has stays, what it lacks comes from the source
      unless a leaf of the target is in the way, and nothing else appears. */
  lemma {:induction false} MergedAt(source: Json, target: Json, path: seq<string>)
    requires source.Dict? && target.Dict?
    ensures var before, after := At(target, path), At(Merged(source, target), path);
            match before
            case Some(Leaf(text)) => after == Some(Leaf(text))
            case Some(Dict(_)) => after.Some? && after.value.Dict?
            case None => after == if Blocked(target, path) then None else At(source, path)
    decreases |path|
  {
    if path != [] {
      var k := path[0];
      var s, t := source.entries, target.entries;
      if k in t && k in s && s[k].Dict? && t[k].Dict? {
        MergedAt(s[k], t[k], path[1..]);
      } else if k in t {
        if At(t[k], path[1..]).None? {
          assert !Blocked(t[k], path[1..]) ==> t[k].Dict? && (k in s ==> s[k].Leaf?);
        }
      }
    }
  }

  /** Merging again changes nothing. */
  lemma {:induction false} Idempotent(source: Json, target: Json)
    requires source.Dict? && target.Dict?
    ensures Merged(source, Merged(source, target)) == Merged(source, target)
    decreases source
  {
    var s, t := source.entries, target.entries;
    var once := Merged(source, target);
    forall k | k in once.entries ensures Merged(source, once).entries[k] == once.entries[k] {
      if k in s && s[k].Dict? {
        if k !in t {
          SelfMerge(s[k]);
        } else if t[k].Dict? {
          Idempotent(s[k], t[k]);
        }
      }
    }
    assert Merged(source, once).entries == once.entries;
  }

  lemma {:induction false} SelfMerge(j: Json)
    requires j.Dict?
    ensures Merged(j, j) == j
    decreases j
  {
    forall k | k in j.entries ensures Merged(j, j).entries[k] == j.entries[k] {
      if j.entries[k].Dict? {
        SelfMerge(j.entries[k]);
      }
    }
    assert Merged(j, j).entries == j.entries;
  }

  // ----- the merge in place -----

  /** What an entry of a JSON object holds: a leaf, or a reference to another object. */
  datatype Value = Text(text: string) | Ref(obj: JsonObject)

  /** A JSON object as the program holds it: a map that others may hold a reference to. */
  class JsonObject {
    var entries: map<string, Value>
    /** The objects of the tree below this one, itself included. */
    ghost var Repr: set<object>

    /** The object is the root of a tree: no object is reachable from it along two paths. */
    ghost predicate Valid()
      reads this, Repr
      decreases Repr
    {
      && this in Repr
      && (forall k | k in entries && entries[k].Ref? ::
            && entries[k].obj in Repr
            && entries[k].obj.Repr <= Repr
            && this !in entries[k].obj.Repr
            && entries[k].obj.Valid())
      && (forall k, l | k in entries && l in entries && k != l && entries[k].Ref? && entries[l].Ref? ::
            entries[k].obj.Repr !! entries[l].obj.Repr)
    }

    ghost function Contents(): (r: Json)
      requires Valid()
      reads this, Repr
      ensures r.Dict? && r.entries.Keys == entries.Keys
      decreases Repr
    {
      Dict(map k | k in entries ::
        match entries[k]
        case Text(text) => Leaf(text)
        case Ref(obj) => obj.Contents())
    }
  }

  /** The entry is a leaf, or the root of a tree inside `room`; either way it reads as j. */
  ghost predicate Holds(v: Value, room: set<object>, j: Json)
    reads room
  {
    match v
    case Text(text) => j == Leaf(text)
    case Ref(obj) => obj in room && obj.Repr <= room && obj.Valid() && obj.Contents() == j
  }

  /** The objects of the tree under each key. */
  ghost function Rooms(o: JsonObject): (r: map<string, set<object>>)
    reads o, o.Repr
  {
    map k | k in o.entries :: match o.entries[k] case Text(_) => {} case Ref(obj) => if obj in o.Repr then obj.Repr else {}
  }

  ghost predicate Apart(rooms: map<string, set<object>>, within: set<object>) {
    && (forall k | k in rooms :: rooms[k] <= within)
    && (forall k, l | k in rooms && l in rooms && k != l :: rooms[k] !! rooms[l])
  }

  /** Every entry is a tree in its own room and reads as its value. */
  ghost predicate Housed(entries: map<string, Value>, rooms: map<string, set<object>>, values: map<string, Json>,
                         within: set<object>)
    reads within
  {
    && entries.Keys == rooms.Keys == values.Keys
    && Apart(rooms, within)
    && forall k | k in rooms :: Holds(entries[k], rooms[k], values[k])
  }

  lemma Opened(o: JsonObject)
    requires o.Valid()
    ensures o in o.Repr && Housed(o.entries, Rooms(o), o.Contents().entries, o.Repr - {o})
  {
  }

  /** An object whose entries have rooms of their own is a tree, and reads as they do. */
  lemma Closed(o: JsonObject, rooms: map<string, set<object>>, values: map<string, Json>)
    requires o in o.Repr && Housed(o.entries, rooms, values, o.Repr - {o})
    ensures o.Valid() && o.Contents() == Dict(values)
  {
    forall k | k in o.entries && o.entries[k].Ref?
      ensures o.entries[k].obj.Repr <= rooms[k] && o.entries[k].obj in o.Repr && o.entries[k].obj.Valid()
    {
      assert Holds(o.entries[k], rooms[k], values[k]);
    }
    assert o.Valid();
    forall k | k in o.entries ensures o.Contents().entries[k] == values[k] {
      assert Holds(o.entries[k], rooms[k], values[k]);
    }
    assert o.Contents().entries == values;
  }

  ghost function Room(rooms: map<string, set<object>>, k: string): set<object> {
    if k in rooms then rooms[k] else {}
  }

  /** The same of every entry but the one under k, whose room may be changing. */
  ghost predicate HousedBut(entries: map<string, Value>, rooms: map<string, set<object>>, values: map<string, Json>,
                            within: set<object>, k: string)
    reads within - Room(rooms, k)
  {
    && entries.Keys == rooms.Keys == values.Keys
    && Apart(rooms, within)
    && forall l | l in rooms && l != k :: Holds(entries[l], rooms[l], values[l])
  }

  lemma Taken(entries: map<string, Value>, rooms: map<string, set<object>>, values: map<string, Json>,
              within: set<object>, k: string)
    requires Housed(entries, rooms, values, within)
    ensures HousedBut(entries, rooms, values, within, k)
    ensures entries.Keys == rooms.Keys == values.Keys
    ensures k in entries ==> rooms[k] <= within && Holds(entries[k], rooms[k], values[k])
  {
    hide Holds;
  }

  /** No entry but the one under k has objects of the room. */
  ghost predicate Free(rooms: map<string, set<object>>, k: string, room: set<object>) {
    forall l | l in rooms && l != k :: rooms[l] !! room
  }

  /** Storing one entry, in a room no other entry has. */
  lemma Stored(entries: map<string, Value>, rooms: map<string, set<object>>, values: map<string, Json>,
               within: set<object>, k: string, v: Value, room: set<object>, j: Json)
    requires HousedBut(entries, rooms, values, within, k) && Holds(v, room, j) && room <= within
    requires Free(rooms, k, room)
    ensures Housed(entries[k := v], rooms[k := room], values[k := j], within)
  {
    hide Holds;
  }

  lemma Widened(entries: map<string, Value>, rooms: map<string, set<object>>, values: map<string, Json>,
                within: set<object>, wider: set<object>)
    requires Housed(entries, rooms, values, within) && within <= wider
    ensures Housed(entries, rooms, values, wider)
  {
    hide Holds;
  }

  /** The value under each key once the keys in `todo` are all that is left. */
  ghost function Midway(s: Json, t: Json, todo: set<string>): map<string, Json>
    requires s.Dict? && t.Dict?
  {
    map k | k in t.entries.Keys + (s.entries.Keys - todo) ::
      if k in s.entries && k !in todo then Merged(s, t).entries[k] else t.entries[k]
  }

  /** Where the tree under each key may lie by then. */
  ghost function Shared(s: map<string, set<object>>, t: map<string, set<object>>, todo: set<string>)
    : map<string, set<object>>
  {
    map k | k in t.Keys + (s.Keys - todo) ::
      if k !in s || k in todo then t[k] else Room(s, k) + Room(t, k)
  }

  /** No key dealt with so far asked for a change. */
  ghost predicate Unchanged(s: Json, t: Json, todo: set<string>)
    requires s.Dict? && t.Dict?
  {
    forall k | k in s.entries && k !in todo :: k in t.entries && Merged(s, t).entries[k] == t.entries[k]
  }

  /** What the merge puts under a key the source has as j. */
  ghost function Joined(j: Json, t: map<string, Json>, k: string): Json {
    if k !in t then j else if j.Dict? && t[k].Dict? then Merged(j, t[k]) else t[k]
  }

  lemma MidwayStep(s: Json, t: Json, todo: set<string>, k: string)
    requires s.Dict? && t.Dict? && k in todo && todo <= s.entries.Keys
    ensures var now := Midway(s, t, todo);
            var j := Joined(s.entries[k], now, k);
            && Midway(s, t, todo - {k}) == now[k := j]
            && (Unchanged(s, t, todo - {k}) <==> Unchanged(s, t, todo) && k in now && j == now[k])
  {
    assert Merged(s, t).entries[k] == Joined(s.entries[k], t.entries, k);
    hide Merged;
  }

  lemma MidwayEnds(s: Json, t: Json)
    requires s.Dict? && t.Dict?
    ensures Midway(s, t, s.entries.Keys) == t.entries && Unchanged(s, t, s.entries.Keys)
    ensures Dict(Midway(s, t, {})) == Merged(s, t)
    ensures Unchanged(s, t, {}) <==> Merged(s, t) == t
  {
    assert Midway(s, t, s.entries.Keys) == t.entries;
    assert Midway(s, t, {}) == Merged(s, t).entries;
    if Unchanged(s, t, {}) {
      assert Merged(s, t).entries == t.entries;
    }
  }

  lemma SharedStep(s: map<string, set<object>>, t: map<string, set<object>>, todo: set<string>, k: string)
    requires k in todo && todo <= s.Keys
    ensures Shared(s, t, todo - {k}) == Shared(s, t, todo)[k := Room(s, k) + Room(Shared(s, t, todo), k)]
    ensures Room(Shared(s, t, todo), k) == Room(t, k)
  {
  }

  /** The key's two rooms are no one else's. */
  lemma SharedApart(s: map<string, set<object>>, t: map<string, set<object>>, a: set<object>, b: set<object>,
                    todo: set<string>, k: string)
    requires Apart(s, a) && Apart(t, b) && a !! b
    ensures Free(Shared(s, t, todo), k, Room(s, k) + Room(t, k))
    ensures Room(s, k) <= a && Room(t, k) <= b
  {
    var now := Shared(s, t, todo);
    forall l | l in now && l != k ensures now[l] !! Room(s, k) + Room(t, k) {
      assert now[l] <= Room(s, l) + Room(t, l);
      assert Room(s, l) !! Room(s, k) && Room(t, l) !! Room(t, k) && Room(s, l) <= a && Room(t, l) <= b;
    }
  }

  lemma SharedEnds(s: map<string, set<object>>, t: map<string, set<object>>)
    ensures Shared(s, t, s.Keys) == t
  {
  }

  /** One key's turn of the merge: v is the source's value, j what it reads as. */
  method MergeEntry(target: JsonObject, k: string, v: Value, ghost own: set<object>, ghost j: Json,
                    ghost rooms: map<string, set<object>>, ghost values: map<string, Json>, ghost within: set<object>)
    returns (same: bool)
    requires Holds(v, own, j) && target !in within && own <= within && own !! Room(rooms, k)
    requires Housed(target.entries, rooms, values, within) && Free(rooms, k, own + Room(rooms, k))
    modifies target, Room(rooms, k)
    ensures Housed(target.entries, rooms[k := own + Room(rooms, k)], values[k := Joined(j, values, k)], within)
    ensures same <==> k in values && Joined(j, values, k) == values[k]
    ensures target.Repr == old(target.Repr)
    decreases own, 1
  {
    hide JsonObject.Valid, JsonObject.Contents, Housed, HousedBut, Merged, Apart, Free;
    same := true;
    Taken(target.entries, rooms, values, within, k);
    ghost var now := target.entries;
    if k !in target.entries {
      same := false;
      target.entries := target.entries[k := v];
    } else {
      var was := target.entries[k];
      if v.Ref? && was.Ref? {
        assert was.obj.Repr !! within - Room(rooms, k);
        same := MergeJson(v.obj, was.obj);
      }
      assert now[k := was] == now;
    }
    Stored(now, rooms, values, within, k, target.entries[k], own + Room(rooms, k), Joined(j, values, k));
  }

  /** Adds to `target` what it lacks of `source`, in some order of the keys, and says whether it lacked nothing. */
  method MergeJson(source: JsonObject, target: JsonObject) returns (equal: bool)
    requires source.Valid() && target.Valid() && source.Repr !! target.Repr
    modifies target.Repr
    ensures target.Valid() && target.Repr <= old(target.Repr) + source.Repr
    ensures target.Contents() == Merged(old(source.Contents()), old(target.Contents()))
    ensures source.Valid() && source.Contents() == old(source.Contents())
    ensures equal <==> target.Contents() == old(target.Contents())
    decreases source.Repr, 0
  {
    hide JsonObject.Valid, JsonObject.Contents, Rooms, Housed, Merged, Joined, Midway, Shared, Apart, Unchanged, Free;
    equal := true;
    ghost var s, t, sr, tr := source.Contents(), target.Contents(), Rooms(source), Rooms(target);
    ghost var home := target.Repr;
    ghost var a, b := source.Repr - {source}, target.Repr - {target};
    Opened(source);
    Opened(target);
    MidwayEnds(s, t);
    SharedEnds(sr, tr);
    Widened(target.entries, tr, t.entries, b, a + b);
    var todo := source.entries.Keys;
    while todo != {}
      invariant todo <= source.entries.Keys
      invariant source.Valid() && source.Contents() == s && target.Repr == home
      invariant Housed(source.entries, sr, s.entries, a)
      invariant Housed(target.entries, Shared(sr, tr, todo), Midway(s, t, todo), a + b)
      invariant equal <==> Unchanged(s, t, todo)
    {
      var k :| k in todo;
      MidwayStep(s, t, todo, k);
      SharedStep(sr, tr, todo, k);
      SharedApart(sr, tr, a, b, todo, k);
      Taken(source.entries, sr, s.entries, a, k);
      var same := MergeEntry(target, k, source.entries[k], sr[k], s.entries[k],
                             Shared(sr, tr, todo), Midway(s, t, todo), a + b);
      equal := same && equal;
      todo := todo - {k};
    }
    target.Repr := target.Repr + (source.Repr - {source});
    assert target.Repr - {target} == a + b;
    Closed(target, Shared(sr, tr, {}), Midway(s, t, {}));
  }
}
