/** The nested property tree of an object: a mapping from names to values,
    where a value may itself be a mapping. A key names a path through the tree,
    written either as one dotted string ("a.b.c") or as a sequence of segments.
    This is the behaviour the object layer needs from the `tree` helper module
    (validate_key, get, set, delete, contains). */
module Tree {
  import opened Errors
  import opened ObjectId

  /** A property value as stored in a document. */
  datatype Value =
    | Null
    | Str(s: string)
    | Int(i: int)
    | Oid(id: Id)
    | List(items: seq<Value>)
    | Dict(fields: map<string, Value>)

  type Props = map<string, Value>

  /** The top-level key that holds a stored object's identifier. */
  const IdKey: string := "_id"

  const Separator: char := '.'

  /** A key as a caller writes it. */
  datatype RawKey = Dotted(text: string) | Compound(segments: seq<string>)

  // ---------------------------------------------------------------- keys

  /** The segments of a dotted string; an empty segment stays in the result. */
  function Split(s: string): (r: seq<string>)
    ensures |r| > 0
  {
    if s == [] then [""]
    else
      var rest := Split(s[1..]);
      if s[0] == Separator then [""] + rest else [[s[0]] + rest[0]] + rest[1..]
  }

  /** The dotted form of a path: its segments separated by '.'. */
  function Join(segs: seq<string>): (r: string)
    requires |segs| > 0
  {
    if |segs| == 1 then segs[0] else segs[0] + [Separator] + Join(segs[1..])
  }

  /** A usable path: at least one segment, no empty segment, and '_id' only at the root. */
  predicate ValidPath(p: seq<string>) {
    && |p| > 0
    && (forall i :: 0 <= i < |p| ==> p[i] != "")
    && (forall i :: 0 < i < |p| ==> p[i] != IdKey)
  }

  /** tree.validate_key: the path a key names, or InvalidKey. */
  function ValidateKey(k: RawKey): (r: Result<seq<string>>)
    ensures r.Ok? ==> ValidPath(r.value)
    ensures r.Err? ==> r.error == InvalidKey
  {
    var p := match k case Dotted(s) => Split(s) case Compound(segs) => segs;
    if ValidPath(p) then Ok(p) else Err(InvalidKey)
  }

  lemma {:induction false} SplitPrefix(w: string, s: string)
    requires Separator !in w
    ensures Split(w + s) == [w + Split(s)[0]] + Split(s)[1..]
  {
    if w != [] {
      assert (w + s)[1..] == w[1..] + s;
      SplitPrefix(w[1..], s);
      assert [w[0]] + (w[1..] + Split(s)[0]) == w + Split(s)[0];
    } else {
      assert w + s == s;
      assert w + Split(s)[0] == Split(s)[0];
      assert Split(s) == [Split(s)[0]] + Split(s)[1..];
    }
  }

  /** Splitting a joined path gives the path back when no segment holds a separator. */
  lemma {:induction false} SplitJoin(segs: seq<string>)
    requires |segs| > 0
    requires forall i :: 0 <= i < |segs| ==> Separator !in segs[i]
    ensures Split(Join(segs)) == segs
  {
    if |segs| == 1 {
      SplitPrefix(segs[0], "");
      assert segs[0] + "" == segs[0];
    } else {
      var rest := Join(segs[1..]);
      assert Join(segs) == segs[0] + ([Separator] + rest);
      SplitPrefix(segs[0], [Separator] + rest);
      assert ([Separator] + rest)[1..] == rest;
      SplitJoin(segs[1..]);
      assert segs[0] + "" == segs[0];
    }
  }

  /** Joining the segments of a string gives the string back. */
  lemma {:induction false} JoinSplit(s: string)
    ensures Join(Split(s)) == s
  {
    if s != [] {
      var rest := Split(s[1..]);
      JoinSplit(s[1..]);
      if s[0] != Separator && |rest| > 1 {
        assert Join(rest) == rest[0] + [Separator] + Join(rest[1..]);
        assert Split(s)[1..] == rest[1..];
      }
    }
  }

  /** A valid path written as a dotted string validates to itself. */
  lemma ValidateJoin(p: seq<string>)
    requires ValidPath(p)
    requires forall i :: 0 <= i < |p| ==> Separator !in p[i]
    ensures ValidateKey(Dotted(Join(p))) == Ok(p)
  {
    SplitJoin(p);
  }

  // ---------------------------------------------------------------- tree operations

  /** tree.contains: whether the path leads to a value; never fails. It holds
      exactly when tree.get finds a value there. */
  function Contains(t: Props, p: seq<string>): (r: bool)
    requires |p| > 0
    ensures r <==> Get(t, p).Ok?
    decreases |p|
  {
    if |p| == 1 then p[0] in t
    else p[0] in t && t[p[0]].Dict? && Contains(t[p[0]].fields, p[1..])
  }

  /** tree.get: the value at the path, or MissingKey when a segment is absent
      or an intermediate value is not a mapping. */
  function Get(t: Props, p: seq<string>): (r: Result<Value>)
    requires |p| > 0
    ensures r.Err? ==> r.error == MissingKey
    decreases |p|
  {
    if p[0] !in t then Err(MissingKey)
    else if |p| == 1 then Ok(t[p[0]])
    else if !t[p[0]].Dict? then Err(MissingKey)
    else Get(t[p[0]].fields, p[1..])
  }

  /** tree.set: stores the value at the path, creating missing intermediate
      mappings; an existing intermediate value that is not a mapping makes it
      fail with NotATree. Top-level entries other than the first segment's are kept. */
  function Set(t: Props, p: seq<string>, v: Value): (r: Result<Props>)
    requires |p| > 0
    ensures r.Ok? ==> p[0] in r.value && r.value - {p[0]} == t - {p[0]}
    ensures r.Err? ==> r.error == NotATree
    decreases |p|
  {
    if |p| == 1 then Ok(t[p[0] := v])
    else if p[0] in t && !t[p[0]].Dict? then Err(NotATree)
    else
      var sub := if p[0] in t then t[p[0]].fields else map[];
      match Set(sub, p[1..], v)
      case Ok(sub') => Ok(t[p[0] := Dict(sub')])
      case Err(e) => Err(e)
  }

  /** tree.delete: removes the entry at the end of the path, leaving the
      intermediate mappings in place; MissingKey when the path leads nowhere. */
  function Delete(t: Props, p: seq<string>): (r: Result<Props>)
    requires |p| > 0
    ensures r.Ok? ==> r.value - {p[0]} == t - {p[0]}
    ensures r.Err? ==> r.error == MissingKey
    decreases |p|
  {
    if p[0] !in t then Err(MissingKey)
    else if |p| == 1 then Ok(t - {p[0]})
    else if !t[p[0]].Dict? then Err(MissingKey)
    else match Delete(t[p[0]].fields, p[1..])
      case Ok(sub') => Ok(t[p[0] := Dict(sub')])
      case Err(e) => Err(e)
  }

  /** The path crosses an existing value that is not a mapping before its last segment. */
  predicate Blocked(t: Props, p: seq<string>)
    requires |p| > 0
    decreases |p|
  {
    |p| > 1 && p[0] in t && (!t[p[0]].Dict? || Blocked(t[p[0]].fields, p[1..]))
  }

  /** Two paths part somewhere: at some position both have, their segments differ. */
  predicate Diverge(p: seq<string>, q: seq<string>) {
    exists i :: 0 <= i < |p| && i < |q| && p[i] != q[i]
  }

  lemma DivergeSymmetric(p: seq<string>, q: seq<string>)
    requires Diverge(p, q)
    ensures Diverge(q, p)
  {
    var i :| 0 <= i < |p| && i < |q| && p[i] != q[i];
    assert 0 <= i < |q| && i < |p| && q[i] != p[i];
  }

  // ---------------------------------------------------------------- tree lemmas

  /** set fails exactly when the path is blocked by a non-mapping value. */
  lemma {:induction false} SetFailsIffBlocked(t: Props, p: seq<string>, v: Value)
    requires |p| > 0
    ensures Set(t, p, v).Err? <==> Blocked(t, p)
    decreases |p|
  {
    if |p| > 1 {
      if p[0] !in t {
        SetFailsIffBlocked(map[], p[1..], v);
      } else if t[p[0]].Dict? {
        SetFailsIffBlocked(t[p[0]].fields, p[1..], v);
      }
    }
  }

  /** A path that is already contained can always be overwritten. */
  lemma {:induction false} ContainedNotBlocked(t: Props, p: seq<string>)
    requires |p| > 0
    requires Contains(t, p)
    ensures !Blocked(t, p)
    decreases |p|
  {
    if |p| > 1 {
      ContainedNotBlocked(t[p[0]].fields, p[1..]);
    }
  }

  /** Reading a path after setting it gives the value set. */
  lemma {:induction false} GetAfterSet(t: Props, p: seq<string>, v: Value)
    requires |p| > 0
    requires Set(t, p, v).Ok?
    ensures Get(Set(t, p, v).value, p) == Ok(v)
    ensures Contains(Set(t, p, v).value, p)
    decreases |p|
  {
    if |p| > 1 {
      var sub := if p[0] in t && t[p[0]].Dict? then t[p[0]].fields else map[];
      GetAfterSet(sub, p[1..], v);
    }
  }

  /** Setting a path leaves every path that diverges from it reading as before. */
  lemma {:induction false} GetOtherAfterSet(t: Props, p: seq<string>, v: Value, q: seq<string>)
    requires |p| > 0 && |q| > 0
    requires Set(t, p, v).Ok?
    requires Diverge(p, q)
    ensures Get(Set(t, p, v).value, q) == Get(t, q)
    decreases |p|
  {
    if p[0] == q[0] {
      var i :| 0 <= i < |p| && i < |q| && p[i] != q[i];
      assert p[1..][i - 1] == p[i] && q[1..][i - 1] == q[i];
      var sub := if p[0] in t then t[p[0]].fields else map[];
      GetOtherAfterSet(sub, p[1..], v, q[1..]);
    }
  }

  /** Deleting a path leaves every path that diverges from it reading as before. */
  lemma {:induction false} GetOtherAfterDelete(t: Props, p: seq<string>, q: seq<string>)
    requires |p| > 0 && |q| > 0
    requires Delete(t, p).Ok?
    requires Diverge(p, q)
    ensures Get(Delete(t, p).value, q) == Get(t, q)
    decreases |p|
  {
    if p[0] == q[0] {
      var i :| 0 <= i < |p| && i < |q| && p[i] != q[i];
      assert p[1..][i - 1] == p[i] && q[1..][i - 1] == q[i];
      GetOtherAfterDelete(t[p[0]].fields, p[1..], q[1..]);
    }
  }

  /** Setting a path to the value it already holds leaves the tree as it was. */
  lemma {:induction false} SetCurrentValue(t: Props, p: seq<string>, v: Value)
    requires |p| > 0
    requires Get(t, p) == Ok(v)
    ensures Set(t, p, v) == Ok(t)
    decreases |p|
  {
    if |p| > 1 {
      SetCurrentValue(t[p[0]].fields, p[1..], v);
      assert t[p[0] := Dict(t[p[0]].fields)] == t;
    } else {
      assert t[p[0] := v] == t;
    }
  }

  /** delete succeeds exactly on contained paths, and the path is gone afterwards. */
  lemma {:induction false} DeleteRemoves(t: Props, p: seq<string>)
    requires |p| > 0
    ensures Delete(t, p).Ok? <==> Contains(t, p)
    ensures Delete(t, p).Ok? ==> !Contains(Delete(t, p).value, p)
    decreases |p|
  {
    if |p| > 1 && p[0] in t && t[p[0]].Dict? {
      DeleteRemoves(t[p[0]].fields, p[1..]);
    }
  }

  /** Deleting the same path twice fails the second time with MissingKey. */
  lemma DeleteTwice(t: Props, p: seq<string>)
    requires |p| > 0
    requires Delete(t, p).Ok?
    ensures Delete(Delete(t, p).value, p) == Err(MissingKey)
  {
    DeleteRemoves(t, p);
    DeleteRemoves(Delete(t, p).value, p);
  }
}
