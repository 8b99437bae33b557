/** What `setValue` does to the series, for input that has already been
    parsed: a whole array replaces the series, an object overwrites the
    entries under its numeric keys, anything else is ignored. */
module Intake {
  import opened Space

  /** An object key: a canonical array index, or any other property name.
      The source skips keys for which `isNaN` holds; a numeric key that is
      not an array index (such as "1.5") names a property of the array and
      not an element, so it leaves the entries alone exactly like a skipped
      key does. Both kinds are `Other`. */
  datatype Key = Index(n: nat) | Other(name: string)

  /** The argument of `setValue` after `JSON.parseFlex`: an array, a plain
      object, or something else (a string that did not parse, null, a
      number, a boolean). */
  datatype Incoming = Whole(points: seq<Point>) | Partial(entries: map<Key, Point>) | Ignored

  /** The `send` and `sync` options. */
  datatype SetOptions = SetOptions(send: bool, sync: bool)

  /** Every index key of a partial update names an existing entry. */
  predicate FitsWithin(m: map<Key, Point>, n: nat) {
    forall k :: k in m && k.Index? ==> k.n < n
  }

  /** The series with the entries named by the index keys of `m` replaced. */
  function Patched(vs: seq<Point>, m: map<Key, Point>): (r: seq<Point>)
    ensures |r| == |vs|
  {
    seq(|vs|, i requires 0 <= i < |vs| => if Index(i) in m then m[Index(i)] else vs[i])
  }

  /** The series after `setValue(v)`. */
  function Applied(vs: seq<Point>, v: Incoming): seq<Point> {
    match v
    case Whole(ps) => ps
    case Partial(m) => Patched(vs, m)
    case Ignored => vs
  }

  /** Anything that is an object (an array or not) triggers a redraw and the
      requested send and sync; the rest triggers nothing. */
  predicate Accepted(v: Incoming) {
    !v.Ignored?
  }

  /** An array replaces the series wholesale; anything else is ignored. */
  lemma AppliedWholeOrIgnored(vs: seq<Point>, v: Incoming)
    ensures v.Whole? ==> Applied(vs, v) == v.points
    ensures v.Ignored? ==> Applied(vs, v) == vs && !Accepted(v)
  {
  }

  /** A partial update keeps the length, stores the given point under each
      index key and leaves every entry without a key unchanged. */
  lemma PatchedSpec(vs: seq<Point>, m: map<Key, Point>)
    requires FitsWithin(m, |vs|)
    ensures |Applied(vs, Partial(m))| == |vs|
    ensures forall k :: k in m && k.Index? ==> Applied(vs, Partial(m))[k.n] == m[k]
    ensures forall i :: 0 <= i < |vs| && Index(i) !in m ==> Applied(vs, Partial(m))[i] == vs[i]
  {
  }

  /** Keys that are not array indices have no effect on the entries. */
  lemma OtherKeysIrrelevant(vs: seq<Point>, m: map<Key, Point>)
    ensures Patched(vs, m) == Patched(vs, map k | k in m && k.Index? :: m[k])
  {
  }

  /** The part of an update under the given keys. */
  function Restrict(m: map<Key, Point>, keys: set<Key>): map<Key, Point> {
    map j | j in keys && j in m :: m[j]
  }

  /** The entries of a partial update can be applied one key at a time: the
      series with the keys in `done` applied, extended by key `k`, is the
      series with `done + {k}` applied. This is how the key loop proceeds. */
  lemma PatchedOneMore(vs: seq<Point>, m: map<Key, Point>, done: set<Key>, k: Key, cur: seq<Point>)
    requires k in m && k !in done && done <= m.Keys && FitsWithin(m, |vs|)
    requires cur == Patched(vs, Restrict(m, done))
    ensures (if k.Index? then cur[k.n := m[k]] else cur) == Patched(vs, Restrict(m, done + {k}))
  {
    var next := if k.Index? then cur[k.n := m[k]] else cur;
    var want := Patched(vs, Restrict(m, done + {k}));
    assert |next| == |want|;
    forall i | 0 <= i < |next| ensures next[i] == want[i] {
    }
  }

  /** Before any key the series is untouched; once every key is done the
      loop has applied the whole update. */
  lemma PatchedEnds(vs: seq<Point>, m: map<Key, Point>)
    ensures Patched(vs, Restrict(m, {})) == vs
    ensures Patched(vs, Restrict(m, m.Keys)) == Patched(vs, m)
  {
    assert Restrict(m, m.Keys) == m;
  }
}
