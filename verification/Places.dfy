/** Where a path leads.  The other modules compare paths byte by byte; here "." and ".." and empty
    components are followed, and the two ways of comparing are shown to agree on the paths of a bank
    whose names are directory entries of their own. */
module Places {
  import opened Bytes

  // ----- following a path -----

  function Followed(up: seq<Str>, name: Str): seq<Str> {
    if name == [] || name == [DOT] then up
    else if name == [DOT, DOT] then if up == [] then [] else up[..|up| - 1]
    else up + [name]
  }

  /** The directory entries passed on the way from the top of the file system. */
  function Place(p: Str): seq<Str>
    decreases |p|
  {
    Followed(if SepEnd(p) == 0 then [] else Place(ParentPath(p)), FileName(p))
  }

  lemma PlaceOfJoin(dir: Str, name: Str)
    requires NoSep(name)
    ensures Place(Join(dir, name)) == Followed(Place(dir), name)
  {
    JoinSplits(dir, name);
  }

  lemma {:induction false} FileNameIsOne(p: Str)
    ensures NoSep(FileName(p))
    decreases |p|
  {
    if p != [] && !IsSep(p[|p| - 1]) {
      var short := p[..|p| - 1];
      FileNameIsOne(short);
      assert FileName(p) == FileName(short) + [p[|p| - 1]];
    }
  }

  lemma {:induction false} PlaceHasNames(p: Str)
    ensures forall name :: name in Place(p) ==> ValidName(name)
    decreases |p|
  {
    FileNameIsOne(p);
    if SepEnd(p) > 0 {
      PlaceHasNames(ParentPath(p));
    }
  }

  /** Joined to a directory, a name leads to one entry in that directory exactly when it is valid. */
  lemma NameLeadsIntoDirIff(dir: Str, name: Str)
    ensures Place(Join(dir, name)) == Place(dir) + [name] <==> ValidName(name)
  {
    if ValidName(name) {
      PlaceOfJoin(dir, name);
    }
    if Place(Join(dir, name)) == Place(dir) + [name] {
      PlaceHasNames(Join(dir, name));
      assert name == (Place(dir) + [name])[|Place(dir)|];
    }
  }

  // ----- paths in normal form -----

  /** `p` is `root`, or comes from it by joining valid names. */
  predicate Normal(root: Str, p: Str)
    decreases |p|
  {
    p == root ||
    (SepEnd(p) > 0 && p == Join(ParentPath(p), FileName(p)) && ValidName(FileName(p)) && Normal(root, ParentPath(p)))
  }

  lemma NormalJoin(root: Str, dir: Str, name: Str)
    requires Normal(root, dir) && ValidName(name)
    ensures Normal(root, Join(dir, name))
  {
    JoinSplits(dir, name);
  }

  /** A group's file, whatever its id, as long as that is free of separators. */
  lemma NormalFile(root: Str, dir: Str, id: Str)
    requires Normal(root, dir) && NoSep(id)
    ensures Normal(root, Join(dir, id + DAT))
  {
    assert NoSep(id + DAT) && |id + DAT| >= 4;
    NormalJoin(root, dir, id + DAT);
  }

  lemma {:induction false} NormalIsUnder(root: Str, p: Str)
    requires Normal(root, p)
    ensures Under(root, p) && Place(root) <= Place(p)
    ensures p != root ==> |Place(root)| < |Place(p)|
    decreases |p|
  {
    if p != root {
      NormalIsUnder(root, ParentPath(p));
    }
  }

  /** Paths in normal form lead to the same place only if they are the same. */
  lemma {:induction false} NormalIsOne(root: Str, p: Str, q: Str)
    requires Normal(root, p) && Normal(root, q) && Place(p) == Place(q)
    ensures p == q
    decreases |p|
  {
    NormalIsUnder(root, p);
    NormalIsUnder(root, q);
    if p != root && q != root {
      var a, b := ParentPath(p), ParentPath(q);
      assert Place(p) == Place(a) + [FileName(p)] && Place(q) == Place(b) + [FileName(q)];
      assert Place(a) == Place(p)[..|Place(p)| - 1] == Place(b);
      assert FileName(p) == Place(p)[|Place(p)| - 1] == FileName(q);
      NormalIsOne(root, a, b);
    }
  }

  lemma {:induction false} UnderIsBelow(root: Str, p: Str, q: Str)
    requires Normal(root, p) && Normal(root, q) && Under(p, q)
    ensures Place(p) <= Place(q)
    decreases |q|
  {
    if q == root {
      NormalIsUnder(root, p);
      UnderIsPrefix(root, p);
      UnderIsPrefix(p, root);
    } else if p != q {
      UnderIsBelow(root, p, ParentPath(q));
    }
  }

  lemma {:induction false} BelowIsUnder(root: Str, p: Str, q: Str)
    requires Normal(root, p) && Normal(root, q) && Place(p) <= Place(q)
    ensures Under(p, q)
    decreases |q|
  {
    NormalIsUnder(root, p);
    if |Place(p)| == |Place(q)| {
      NormalIsOne(root, p, q);
    } else {
      var up := Place(ParentPath(q));
      assert Place(q) == up + [FileName(q)];
      assert Place(p) <= up;
      BelowIsUnder(root, p, ParentPath(q));
    }
  }

  /** For paths in normal form, comparing bytes is comparing places: the same one, and below one. */
  lemma BytesArePlaces(root: Str, p: Str, q: Str)
    requires Normal(root, p) && Normal(root, q)
    ensures p == q <==> Place(p) == Place(q)
    ensures Under(p, q) <==> Place(p) <= Place(q)
  {
    if Place(p) == Place(q) {
      NormalIsOne(root, p, q);
    }
    if Under(p, q) {
      UnderIsBelow(root, p, q);
    }
    if Place(p) <= Place(q) {
      BelowIsUnder(root, p, q);
    }
  }
}
