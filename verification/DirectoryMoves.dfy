/** Inferring that a whole directory moved from one moved link, and rebasing the
  registered link paths below it.  Clean absolute paths are sequences of
  components; the root directory is the empty sequence.
*/
module DirectoryMoves {
  import opened Optional

  type Parts = seq<string>

  /** A cleaned path.  A missing registration is the relative path `.`. */
  datatype Location = Absolute(parts: Parts) | Relative(parts: Parts)

  datatype Move = Move(oldRoot: Parts, newRoot: Parts)

  // ------------------------------------------------------------- inference

  predicate SharesSuffix(a: Parts, b: Parts, n: nat) {
    n <= |a| && n <= |b| && a[|a| - n..] == b[|b| - n..]
  }

  /** `n` is the length of the longest common suffix. */
  predicate LongestSuffix(a: Parts, b: Parts, n: nat) {
    SharesSuffix(a, b, n) && !SharesSuffix(a, b, n + 1)
  }

  /** Both paths are their root followed by one tail, and no longer tail would do. */
  predicate Splits(move: Move, tail: Parts, a: Parts, b: Parts) {
    && tail != [] && move.oldRoot != [] && move.newRoot != []
    && a == move.oldRoot + tail && b == move.newRoot + tail
    && move.oldRoot[|move.oldRoot| - 1] != move.newRoot[|move.newRoot| - 1]
  }

  /** The counting loop over trailing components. */
  method CountSuffix(a: Parts, b: Parts) returns (n: nat)
    ensures LongestSuffix(a, b, n)
  {
    n := 0;
    while n < |a| && n < |b| && a[|a| - 1 - n] == b[|b| - 1 - n]
      invariant SharesSuffix(a, b, n)
      decreases |a| - n
    {
      assert a[|a| - (n + 1)..] == [a[|a| - 1 - n]] + a[|a| - n..];
      assert b[|b| - (n + 1)..] == [b[|b| - 1 - n]] + b[|b| - n..];
      n := n + 1;
    }
    if n < |a| && n < |b| {
      assert a[|a| - (n + 1)..][0] != b[|b| - (n + 1)..][0];
    }
  }

  /** A directory move is inferred exactly when the paths are two non-root directories
      followed by the same maximal non-empty tail. */
  method InferDirectoryMove(oldPath: Location, newPath: Location) returns (move: Option<Move>)
    ensures move.Some? ==>
      && oldPath.Absolute? && newPath.Absolute?
      && exists tail :: Splits(move.value, tail, oldPath.parts, newPath.parts)
    ensures move.None? ==>
      !(oldPath.Absolute? && newPath.Absolute? &&
        exists m, tail :: Splits(m, tail, oldPath.parts, newPath.parts))
    ensures move.Some? ==> move.value.oldRoot != move.value.newRoot
  {
    if !oldPath.Absolute? || !newPath.Absolute? || oldPath == newPath {
      NoSplitOfEqualPaths(oldPath.parts);
      return None;
    }
    var a, b := oldPath.parts, newPath.parts;
    var n := CountSuffix(a, b);
    if n == 0 || n == |a| || n == |b| {
      forall m, tail | Splits(m, tail, a, b) ensures false {
        SplitIsLongest(m, tail, a, b);
        LongestIsUnique(a, b, n, |tail|);
      }
      return None;
    }
    var roots := Move(a[..|a| - n], b[..|b| - n]);
    LongestSplits(a, b, n);
    move := Some(roots);
  }

  lemma NoSplitOfEqualPaths(a: Parts)
    ensures !exists m, tail :: Splits(m, tail, a, a)
  {
    forall m: Move, tail: Parts
      ensures a == m.oldRoot + tail && a == m.newRoot + tail ==> m.oldRoot == m.newRoot
    {
      assert (m.oldRoot + tail)[..|m.oldRoot|] == m.oldRoot;
      assert (m.newRoot + tail)[..|m.newRoot|] == m.newRoot;
    }
  }

  lemma LongestSplits(a: Parts, b: Parts, n: nat)
    requires LongestSuffix(a, b, n) && 0 < n < |a| && n < |b|
    ensures Splits(Move(a[..|a| - n], b[..|b| - n]), a[|a| - n..], a, b)
  {
    assert a[|a| - (n + 1)..] == [a[|a| - 1 - n]] + a[|a| - n..];
    assert b[|b| - (n + 1)..] == [b[|b| - 1 - n]] + b[|b| - n..];
    assert a == a[..|a| - n] + a[|a| - n..];
    assert b == b[..|b| - n] + b[|b| - n..];
  }

  lemma SplitIsLongest(m: Move, tail: Parts, a: Parts, b: Parts)
    requires Splits(m, tail, a, b)
    ensures LongestSuffix(a, b, |tail|) && |tail| < |a| && |tail| < |b|
  {
    var n := |tail|;
    assert a[|a| - n..] == tail == b[|b| - n..];
    assert a[|a| - (n + 1)..][0] == m.oldRoot[|m.oldRoot| - 1];
    assert b[|b| - (n + 1)..][0] == m.newRoot[|m.newRoot| - 1];
  }

  lemma ShorterSuffixShared(a: Parts, b: Parts, n: nat, k: nat)
    requires SharesSuffix(a, b, n) && k <= n
    ensures SharesSuffix(a, b, k)
  {
    assert a[|a| - k..] == a[|a| - n..][n - k..];
    assert b[|b| - k..] == b[|b| - n..][n - k..];
  }

  lemma LongestIsUnique(a: Parts, b: Parts, n: nat, k: nat)
    requires LongestSuffix(a, b, n) && LongestSuffix(a, b, k)
    ensures n == k
  {
    if n < k { ShorterSuffixShared(a, b, k, n + 1); }
    if k < n { ShorterSuffixShared(a, b, n, k + 1); }
  }

  // --------------------------------------------------------------- rebasing

  predicate Within(root: Parts, p: Parts) { root <= p }

  /** A proper descendant: `filepath.Rel` is neither `.` nor does it climb. */
  predicate Below(root: Parts, p: Location) {
    p.Absolute? && root <= p.parts && root != p.parts
  }

  function Rebased(move: Move, p: Location): Location {
    if Below(move.oldRoot, p) then Absolute(move.newRoot + p.parts[|move.oldRoot|..]) else p
  }

  function RebasedAll<K>(move: Move, links: map<K, Location>): map<K, Location> {
    map k | k in links :: Rebased(move, links[k])
  }

  /** The loop of `rebaseLinkSources`: entries are rewritten in place and counted. */
  method RebaseLinkSources<K>(links: map<K, Location>, move: Move)
    returns (result: map<K, Location>, changed: nat)
    ensures result == RebasedAll(move, links)
    ensures changed == |set k | k in links && Below(move.oldRoot, links[k])|
    ensures move.oldRoot != move.newRoot ==>
              changed == |set k | k in links && result[k] != links[k]|
  {
    result, changed := links, 0;
    var todo := links.Keys;
    ghost var moved: set<K> := {};
    while todo != {}
      invariant todo <= links.Keys && result.Keys == links.Keys
      invariant forall k | k in links :: result[k] == if k in todo then links[k] else Rebased(move, links[k])
      invariant moved == set k | k in links && k !in todo && Below(move.oldRoot, links[k])
      invariant changed == |moved|
      decreases todo
    {
      var key :| key in todo;
      todo := todo - {key};
      if Below(move.oldRoot, links[key]) {
        result := result[key := Rebased(move, links[key])];
        moved := moved + {key};
        changed := changed + 1;
      }
    }
    assert moved == set k | k in links && Below(move.oldRoot, links[k]);
    if move.oldRoot != move.newRoot {
      forall k | k in links ensures Below(move.oldRoot, links[k]) <==> result[k] != links[k] {
        if Below(move.oldRoot, links[k]) { RebaseMovesDescendants(move, links[k]); }
      }
      assert moved == set k | k in links && result[k] != links[k];
    }
  }

  lemma RebaseMovesDescendants(move: Move, p: Location)
    requires move.oldRoot != move.newRoot && Below(move.oldRoot, p)
    ensures Rebased(move, p) != p
  {
    var rest := p.parts[|move.oldRoot|..];
    assert p.parts == move.oldRoot + rest;
    assert move.newRoot == (move.newRoot + rest)[..|move.newRoot|];
    assert move.oldRoot == (move.oldRoot + rest)[..|move.oldRoot|];
  }

  /** The move inferred from a link takes that link exactly where it was found. */
  lemma InferredMoveIsExact(move: Move, tail: Parts, oldPath: Parts, newPath: Parts)
    requires Splits(move, tail, oldPath, newPath)
    ensures Rebased(move, Absolute(oldPath)) == Absolute(newPath)
  {
    assert oldPath[|move.oldRoot|..] == tail;
  }

  /** Paths outside the old directory, the directory itself included, stay put, and
      descendants keep their place relative to the root. */
  lemma RebaseIsLocal(move: Move, p: Location)
    ensures !Below(move.oldRoot, p) ==> Rebased(move, p) == p
    ensures Below(move.oldRoot, p) ==>
      exists rest :: rest != [] && p.parts == move.oldRoot + rest
                     && Rebased(move, p) == Absolute(move.newRoot + rest)
  {
    if Below(move.oldRoot, p) {
      var rest := p.parts[|move.oldRoot|..];
      assert rest != [] && p.parts == move.oldRoot + rest;
    }
  }

  /** Different descendants stay different, so no two links collide by rebasing. */
  lemma RebaseKeepsDescendantsApart(move: Move, p: Location, q: Location)
    requires Below(move.oldRoot, p) && Below(move.oldRoot, q) && p != q
    ensures Rebased(move, p) != Rebased(move, q)
  {
    var n := |move.oldRoot|;
    assert p.parts == move.oldRoot + p.parts[n..] && q.parts == move.oldRoot + q.parts[n..];
    var a, b := move.newRoot + p.parts[n..], move.newRoot + q.parts[n..];
    assert a[|move.newRoot|..] == p.parts[n..];
    assert b[|move.newRoot|..] == q.parts[n..];
  }

  /** Neither directory contains the other. */
  predicate Apart(move: Move) {
    !Within(move.oldRoot, move.newRoot) && !Within(move.newRoot, move.oldRoot)
  }

  lemma PrefixesOfOnePath(a: Parts, b: Parts, p: Parts)
    requires a <= p && b <= p
    ensures a <= b || b <= a
  {
    if |a| <= |b| { assert a == p[..|a|] == b[..|a|]; } else { assert b == p[..|b|] == a[..|b|]; }
  }

  lemma SecondRebaseOfPathIsIdle(move: Move, p: Location)
    requires Apart(move)
    ensures Rebased(move, Rebased(move, p)) == Rebased(move, p)
  {
    var q := Rebased(move, p);
    if Below(move.oldRoot, p) && Below(move.oldRoot, q) {
      PrefixesOfOnePath(move.oldRoot, move.newRoot, q.parts);
    }
  }

  /** A link whose second rebase moves it again, when one root lies inside the other. */
  function Witness(move: Move): Location {
    if Within(move.oldRoot, move.newRoot) then Absolute(move.oldRoot + ["x"])
    else Absolute(move.oldRoot + move.oldRoot[if |move.newRoot| <= |move.oldRoot| then |move.newRoot| else 0..] + ["x"])
  }

  lemma NestedRootsRebaseTwice(move: Move)
    requires move.oldRoot != move.newRoot && !Apart(move)
    ensures Rebased(move, Rebased(move, Witness(move))) != Rebased(move, Witness(move))
  {
    var p := Witness(move);
    var o, n := move.oldRoot, move.newRoot;
    assert Below(o, p);
    if Within(o, n) {
      assert p.parts[|o|..] == ["x"];
      assert Below(o, Absolute(n + ["x"]));
      RebaseMovesDescendants(move, Absolute(n + ["x"]));
    } else {
      var d := o[|n|..];
      assert o == n + d && p.parts[|o|..] == d + ["x"];
      assert n + (d + ["x"]) == o + ["x"];
      RebaseMovesDescendants(move, Absolute(o + ["x"]));
    }
  }

  /** Rebasing twice is rebasing once, for every set of links, exactly when neither root
      contains the other.  A confirmed move only rules out the new root inside the old. */
  lemma SecondRebaseIsIdleIffApart(move: Move)
    requires move.oldRoot != move.newRoot
    ensures Apart(move) <==>
      forall links: map<string, Location> ::
        RebasedAll(move, RebasedAll(move, links)) == RebasedAll(move, links)
  {
    if Apart(move) {
      forall links: map<string, Location>
        ensures RebasedAll(move, RebasedAll(move, links)) == RebasedAll(move, links)
      {
        forall k | k in links
          ensures Rebased(move, Rebased(move, links[k])) == Rebased(move, links[k])
        {
          SecondRebaseOfPathIsIdle(move, links[k]);
        }
      }
    } else {
      NestedRootsRebaseTwice(move);
      var links := map["k" := Witness(move)];
      var once := RebasedAll(move, links);
      assert once["k"] == Rebased(move, Witness(move));
      assert RebasedAll(move, once)["k"] != once["k"];
    }
  }

  /** `confirmedDirectoryMove`: the old root is gone and the new one is a directory.  In a
      tree, where a present path has all its ancestors, that puts the new root outside
      the old one -- but not the old one outside the new. */
  lemma ConfirmedMoveLeavesOldRoot(present: iset<Parts>, move: Move)
    requires forall p, n: nat | p in present && n <= |p| :: p[..n] in present
    requires move.oldRoot !in present && move.newRoot in present
    ensures !Within(move.oldRoot, move.newRoot)
  {
    if |move.oldRoot| <= |move.newRoot| {
      var ancestor := move.newRoot[..|move.oldRoot|];
      assert ancestor in present;
      assert Within(move.oldRoot, move.newRoot) ==> ancestor == move.oldRoot;
    }
  }

  /** An inferred and confirmable move whose second rebase still moves a link: a
      directory `a/b` whose contents moved up into `a`. */
  lemma ConfirmedMoveCanRebaseTwice()
    ensures var move := Move(["a", "b"], ["a"]);
            && Splits(move, ["f"], ["a", "b", "f"], ["a", "f"])
            && !Within(move.oldRoot, move.newRoot)
            && Rebased(move, Absolute(["a", "b", "b", "g"])) == Absolute(["a", "b", "g"])
            && Rebased(move, Absolute(["a", "b", "g"])) == Absolute(["a", "g"])
  {
    var move := Move(["a", "b"], ["a"]);
    assert ["a", "b", "b", "g"][2..] == ["b", "g"];
    assert ["a", "b", "g"][2..] == ["g"];
    assert ["a"] + ["b", "g"] == ["a", "b", "g"];
  }
}
