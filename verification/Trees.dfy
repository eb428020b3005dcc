/** Directory trees as maps from element sequences to records, with the operations a
    flat key-value store can do on them. */
module Trees {
  import opened Paths
  import opened FileModes

  /** A stored file: its contents (a blob reference, opaque here), mode and time. */
  datatype Record<D> = Record(data: D, mode: FileMode, modTime: int)

  type Tree<D> = map<Path, Record<D>>

  ghost predicate IsDirAt<D>(t: Tree<D>, p: Path) {
    p in t && IsDir(t[p].mode)
  }

  /** The tree invariant nothing in a flat store enforces by itself: every record except
      the root lies in a directory. */
  ghost predicate WellFormed<D>(t: Tree<D>) {
    forall p {:trigger Parent(p)} | p in t && p != [] :: IsDirAt(t, Parent(p))
  }

  ghost predicate NoneUnder<D>(t: Tree<D>, n: Path) {
    forall q | q in t :: !(n <= q)
  }

  ghost predicate IsChild<D>(t: Tree<D>, p: Path, c: string) {
    p + [c] in t
  }

  lemma NextElement(p: Path, c: string, q: Path)
    ensures p + [c] <= q <==> p <= q && |p| < |q| && q[|p|] == c
  {
    if p <= q && |p| < |q| && q[|p|] == c {
      assert q[..|p| + 1] == p + [c];
    }
  }

  lemma {:induction false} AncestorsPresent<D>(t: Tree<D>, p: Path, i: nat)
    requires WellFormed(t) && p in t && i < |p|
    ensures IsDirAt(t, p[..i])
    decreases |p|
  {
    assert Parent(p) == p[..|p| - 1];
    if i < |p| - 1 {
      AncestorsPresent(t, Parent(p), i);
      assert Parent(p)[..i] == p[..i];
    }
  }

  lemma AbsentHasNoneUnder<D>(t: Tree<D>, n: Path)
    requires WellFormed(t) && n !in t
    ensures NoneUnder(t, n)
  {
    forall q | q in t ensures !(n <= q) {
      assert n <= q ==> q[..|n|] == n;
      if n <= q && n != q {
        AncestorsPresent(t, q, |n|);
      }
    }
  }

  // ---------- what can be reached from a record through directories ----------

  /** q is present, and every record from o down to it is a directory. */
  ghost predicate Reach<D>(t: Tree<D>, o: Path, q: Path) {
    o <= q && q in t && forall i | |o| <= i < |q| :: IsDirAt(t, q[..i])
  }

  ghost function ReachSet<D>(t: Tree<D>, o: Path): set<Path> {
    set q | q in t && Reach(t, o, q)
  }

  /** In a well-formed tree everything under o is reachable from it. */
  lemma ReachIsUnder<D>(t: Tree<D>, o: Path, q: Path)
    requires WellFormed(t)
    ensures Reach(t, o, q) <==> o <= q && q in t
  {
    if o <= q && q in t {
      forall i | |o| <= i < |q| ensures IsDirAt(t, q[..i]) {
        AncestorsPresent(t, q, i);
      }
    }
  }

  /** Reachability through a first element c is reachability from the child c. */
  lemma ReachChild<D>(t: Tree<D>, o: Path, c: string, q: Path)
    requires o + [c] <= q
    ensures Reach(t, o, q) <==> IsDirAt(t, o) && Reach(t, o + [c], q)
  {
    assert q[..|o|] == (o + [c])[..|o|] == o;
    assert o <= q;
  }

  lemma ReachFirst<D>(t: Tree<D>, o: Path, q: Path)
    requires Reach(t, o, q) && |o| < |q|
    ensures o + [q[|o|]] <= q && IsDirAt(t, o) && IsChild(t, o, q[|o|]) && Reach(t, o + [q[|o|]], q)
  {
    var c := q[|o|];
    assert q[..|o|] == o;
    assert q[..|o| + 1] == o + [c];
    assert o + [c] == q || IsDirAt(t, q[..|o| + 1]);
    ReachChild(t, o, c, q);
  }

  lemma ReachOfFile<D>(t: Tree<D>, o: Path, q: Path)
    requires o in t && !IsDir(t[o].mode)
    ensures Reach(t, o, q) <==> q == o
  {
    if Reach(t, o, q) && q != o {
      ReachFirst(t, o, q);
    }
  }

  // ---------- moving a subtree ----------

  /** The tree with everything reachable from o re-keyed from o/r to n/r. */
  ghost function Moved<D>(t: Tree<D>, o: Path, n: Path): Tree<D> {
    var keys := (set q | q in t && !Reach(t, o, q)) + (set q | q in t && Reach(t, o, q) :: n + q[|o|..]);
    map k | k in keys && Origin(t, o, n, k) in t :: t[Origin(t, o, n, k)]
  }

  /** Where the record found at k after the move was before it. */
  ghost function Origin<D>(t: Tree<D>, o: Path, n: Path, k: Path): Path {
    if n <= k then o + k[|n|..] else k
  }

  /** The move, key by key. */
  lemma MovedAt<D>(t: Tree<D>, o: Path, n: Path, k: Path)
    requires NoneUnder(t, n)
    ensures k in Moved(t, o, n) <==>
            if n <= k then Reach(t, o, o + k[|n|..]) else k in t && !Reach(t, o, k)
    ensures k in Moved(t, o, n) ==> Moved(t, o, n)[k] == t[Origin(t, o, n, k)]
  {
    if n <= k {
      var q := o + k[|n|..];
      assert q[|o|..] == k[|n|..];
      assert n + q[|o|..] == k;
      forall q' | q' in t && o <= q' && n + q'[|o|..] == k ensures q' == q {
        assert k[|n|..] == q'[|o|..];
        assert q' == o + q'[|o|..];
      }
    }
  }

  /** A rename into the renamed directory, at least two levels down, below directories:
      exactly the renames on which the recursion never ends. */
  ghost predicate Chain<D>(t: Tree<D>, o: Path, n: Path) {
    |o| + 2 <= |n| && o <= n && forall i | |o| <= i < |n| :: IsDirAt(t, n[..i])
  }

  /** What holds between two children in the rename loop: the children in done have moved. */
  ghost predicate Moving<D>(t: Tree<D>, o: Path, n: Path, done: set<string>, u: Tree<D>) {
    forall q :: MovedSoFar(t, o, n, done, u, q)
  }

  ghost predicate MovedSoFar<D>(t: Tree<D>, o: Path, n: Path, done: set<string>, u: Tree<D>, q: Path) {
    (q in u <==> Placed(t, o, n, done, q)) && (q in u ==> Origin(t, o, n, q) in t && u[q] == t[Origin(t, o, n, q)])
  }

  ghost predicate Placed<D>(t: Tree<D>, o: Path, n: Path, done: set<string>, q: Path) {
    if n <= q then q == n || (q[|n|] in done && Reach(t, o, o + q[|n|..]))
    else q in t && !(|o| < |q| && Reach(t, o, q) && q[|o|] in done)
  }

  lemma MovingStart<D>(t: Tree<D>, o: Path, n: Path)
    requires NoneUnder(t, n) && o in t
    ensures Moving(t, o, n, {}, t[n := t[o]])
  {
    forall q ensures var u := t[n := t[o]];
                     (q in u <==> Placed(t, o, n, {}, q)) &&
                     (q in u ==> Origin(t, o, n, q) in t && u[q] == t[Origin(t, o, n, q)]) {
      assert o + n[|n|..] == o;
    }
  }

  /** While the loop runs, the child c is still where it was and its target is free. */
  lemma MovingChild<D>(t: Tree<D>, o: Path, n: Path, done: set<string>, u: Tree<D>, c: string)
    requires NoneUnder(t, n) && IsDirAt(t, o) && Moving(t, o, n, done, u)
    requires c !in done && IsChild(t, o, c)
    ensures o + [c] in u && u[o + [c]] == t[o + [c]]
    ensures IsDirAt(u, n) && NoneUnder(u, n + [c])
  {
    var p := o + [c];
    assert MovedSoFar(t, o, n, done, u, p);
    assert Placed(t, o, n, done, p) && Origin(t, o, n, p) == p;
    assert MovedSoFar(t, o, n, done, u, n);
    assert Placed(t, o, n, done, n) && Origin(t, o, n, n) == o;
    forall q | q in u ensures !(n + [c] <= q) {
      assert MovedSoFar(t, o, n, done, u, q);
      assert Placed(t, o, n, done, q);
      NextElement(n, c, q);
    }
  }

  /** What a child can reach is unchanged by the loop, unless the target lies in it. */
  lemma MovingReach<D>(t: Tree<D>, o: Path, n: Path, done: set<string>, u: Tree<D>, c: string, q: Path)
    requires NoneUnder(t, n) && IsDirAt(t, o) && Moving(t, o, n, done, u)
    requires c !in done && IsChild(t, o, c) && o + [c] <= q
    requires !Chain(t, o, n) || !(o + [c] <= n)
    ensures Reach(u, o + [c], q) <==> Reach(t, o + [c], q)
  {
    var p := o + [c];
    forall k | p <= k && !(n <= k)
      ensures k in u <==> k in t
      ensures k in u ==> u[k] == t[k]
    {
      assert k[|o|] == c;
      assert MovedSoFar(t, o, n, done, u, k);
      assert Placed(t, o, n, done, k) <==> k in t;
    }
    if n <= q {
      assert q !in t;
      if Reach(u, p, q) {
        PrefixesCompare(p, n, q);
        forall i | |o| <= i < |n| ensures IsDirAt(t, n[..i]) {
          if i == |o| {
            assert n[..i] == p[..|o|] == o;
          } else {
            assert q[..i] == n[..i];
            assert p <= n[..i];
          }
        }
      }
    } else {
      forall i | |p| <= i < |q| ensures IsDirAt(u, q[..i]) <==> IsDirAt(t, q[..i]) {
        assert p <= q[..i] && !(n <= q[..i]);
      }
    }
  }

  /** One turn of the loop: moving what the child reaches adds the child to done.  At a key under
      the child's target... */
  lemma StepUnderTarget<D>(t: Tree<D>, o: Path, n: Path, done: set<string>, u: Tree<D>, c: string, q: Path)
    requires NoneUnder(t, n) && IsDirAt(t, o) && Moving(t, o, n, done, u)
    requires c !in done && IsChild(t, o, c) && (!Chain(t, o, n) || !(o + [c] <= n))
    requires n + [c] <= q
    ensures MovedSoFar(t, o, n, done + {c}, Moved(u, o + [c], n + [c]), q)
  {
    var p, m := o + [c], n + [c];
    var r := p + q[|m|..];
    assert NoneUnder(u, m) by { MovingChild(t, o, n, done, u, c); }
    MovedAt(u, p, m, q);
    assert r == o + q[|n|..];
    assert n <= q && q != n && q[|n|] == c;
    MovingReach(t, o, n, done, u, c, r);
    ReachChild(t, o, c, r);
    if Reach(u, p, r) {
      assert MovedSoFar(t, o, n, done, u, r);
      assert r in t && !(n <= r);
    }
  }

  /** ...elsewhere under the target... */
  lemma StepInTarget<D>(t: Tree<D>, o: Path, n: Path, done: set<string>, u: Tree<D>, c: string, q: Path)
    requires NoneUnder(t, n) && IsDirAt(t, o) && Moving(t, o, n, done, u)
    requires c !in done && IsChild(t, o, c) && (!Chain(t, o, n) || !(o + [c] <= n))
    requires n <= q && !(n + [c] <= q)
    ensures MovedSoFar(t, o, n, done + {c}, Moved(u, o + [c], n + [c]), q)
  {
    assert NoneUnder(u, n + [c]) by { MovingChild(t, o, n, done, u, c); }
    MovedAt(u, o + [c], n + [c], q);
    NextElement(n, c, q);
    assert MovedSoFar(t, o, n, done, u, q);
    assert q !in t;
    if o + [c] <= q {
      MovingReach(t, o, n, done, u, c, q);
    }
  }

  /** ...and outside the target. */
  lemma StepOutside<D>(t: Tree<D>, o: Path, n: Path, done: set<string>, u: Tree<D>, c: string, q: Path)
    requires NoneUnder(t, n) && IsDirAt(t, o) && Moving(t, o, n, done, u)
    requires c !in done && IsChild(t, o, c) && (!Chain(t, o, n) || !(o + [c] <= n))
    requires !(n <= q)
    ensures MovedSoFar(t, o, n, done + {c}, Moved(u, o + [c], n + [c]), q)
  {
    var p := o + [c];
    assert NoneUnder(u, n + [c]) by { MovingChild(t, o, n, done, u, c); }
    assert !(n + [c] <= q) by { NextElement(n, c, q); }
    MovedAt(u, p, n + [c], q);
    assert MovedSoFar(t, o, n, done, u, q);
    if p <= q {
      MovingReach(t, o, n, done, u, c, q);
      ReachChild(t, o, c, q);
      assert q[|o|] == c;
    } else if |o| < |q| && Reach(t, o, q) && q[|o|] == c {
      ReachFirst(t, o, q);
    }
  }

  lemma MovingStep<D>(t: Tree<D>, o: Path, n: Path, done: set<string>, u: Tree<D>, c: string)
    requires NoneUnder(t, n) && IsDirAt(t, o) && Moving(t, o, n, done, u)
    requires c !in done && IsChild(t, o, c)
    requires !Chain(t, o, n) || !(o + [c] <= n)
    ensures Moving(t, o, n, done + {c}, Moved(u, o + [c], n + [c]))
  {
    forall q ensures MovedSoFar(t, o, n, done + {c}, Moved(u, o + [c], n + [c]), q) {
      if n + [c] <= q {
        StepUnderTarget(t, o, n, done, u, c, q);
      } else if n <= q {
        StepInTarget(t, o, n, done, u, c, q);
      } else {
        StepOutside(t, o, n, done, u, c, q);
      }
    }
  }

  /** After the last child, deleting o itself completes the move. */
  lemma MovingDone<D>(t: Tree<D>, o: Path, n: Path, done: set<string>, u: Tree<D>)
    requires NoneUnder(t, n) && IsDirAt(t, o) && Moving(t, o, n, done, u)
    requires forall c :: c in done <==> IsChild(t, o, c)
    ensures u - {o} == Moved(t, o, n)
  {
    var v := Moved(t, o, n);
    forall q
      ensures q in u && q != o <==> q in v
      ensures q in v ==> u[q] == v[q]
    {
      MovedAt(t, o, n, q);
      assert MovedSoFar(t, o, n, done, u, q);
      assert Placed(t, o, n, done, q) <==> q in u;
      if n <= q {
        var r := o + q[|n|..];
        if q != n && Reach(t, o, r) { ReachFirst(t, o, r); }
        if q == n { assert r == o; }
      } else {
        if |o| < |q| && Reach(t, o, q) { ReachFirst(t, o, q); }
      }
    }
  }

  /** A file is moved by storing it at the new key and deleting the old one. */
  lemma MovedFile<D>(t: Tree<D>, o: Path, n: Path)
    requires o in t && !IsDir(t[o].mode) && NoneUnder(t, n)
    ensures t[n := t[o]] - {o} == Moved(t, o, n)
  {
    var v := Moved(t, o, n);
    forall q
      ensures (q in t || q == n) && q != o <==> q in v
      ensures q in v ==> v[q] == t[n := t[o]][q]
    {
      MovedAt(t, o, n, q);
      ReachOfFile(t, o, q);
      if n <= q {
        ReachOfFile(t, o, o + q[|n|..]);
        if o + q[|n|..] == o { assert q[|n|..] == []; assert q == n; }
        if q == n { assert o + q[|n|..] == o; }
      }
    }
  }

  /** The loop hands a rename into itself on to the child that holds the target. */
  lemma ChainChild<D>(t: Tree<D>, o: Path, n: Path, done: set<string>, u: Tree<D>)
    requires NoneUnder(t, n) && IsDirAt(t, o) && Moving(t, o, n, done, u)
    requires Chain(t, o, n)
    ensures var c := n[|o|]; IsChild(t, o, c) && o + [c] <= n && IsDir(t[o + [c]].mode) &&
                             (c !in done ==> Chain(u, o + [c], n + [c]))
  {
    var c := n[|o|];
    assert n[..|o|] == o;
    assert n[..|o| + 1] == o + [c];
    if c !in done {
      MovingChild(t, o, n, done, u, c);
      var m := n + [c];
      forall i | |o| + 1 <= i < |m| ensures IsDirAt(u, m[..i]) {
        if i == |n| {
          assert m[..i] == n;
        } else {
          assert m[..i] == n[..i];
          assert n[..i][|o|] == c;
          assert MovedSoFar(t, o, n, done, u, n[..i]);
          assert Placed(t, o, n, done, n[..i]);
        }
      }
      assert o + [c] <= m;
    }
  }

  /** Without a chain from o to n there is none from a child to its target either. */
  lemma NoChainChild<D>(t: Tree<D>, o: Path, n: Path, done: set<string>, u: Tree<D>, c: string)
    requires NoneUnder(t, n) && IsDirAt(t, o) && Moving(t, o, n, done, u)
    requires c !in done && IsChild(t, o, c)
    requires !Chain(t, o, n) || !(o + [c] <= n)
    ensures !Chain(u, o + [c], n + [c])
  {
    var p, m := o + [c], n + [c];
    if Chain(u, p, m) {
      assert m[..|n|] == n;
      assert p <= n by { assert p == m[..|p|]; assert n[..|p|] == m[..|p|]; }
      NextElement(o, c, n);
      forall i | |o| <= i < |n| ensures IsDirAt(t, n[..i]) {
        if i == |o| {
          assert n[..i] == p[..|o|] == o;
        } else {
          assert m[..i] == n[..i];
          assert IsDirAt(u, n[..i]);
          assert MovedSoFar(t, o, n, done, u, n[..i]);
          assert Placed(t, o, n, done, n[..i]);
        }
      }
    }
  }

  /** The recursion's measure: a child reaches strictly fewer records. */
  lemma ReachSetShrinks<D>(t: Tree<D>, o: Path, c: string, u: Tree<D>)
    requires IsDirAt(t, o) && IsChild(t, o, c)
    requires forall q | o + [c] <= q :: Reach(u, o + [c], q) <==> Reach(t, o + [c], q)
    ensures |ReachSet(u, o + [c])| < |ReachSet(t, o)|
  {
    var a, b := ReachSet(u, o + [c]), ReachSet(t, o);
    forall q | q in a ensures q in b - {o} {
      ReachChild(t, o, c, q);
    }
    assert Reach(t, o, o) by { assert o <= o; }
    SubsetSize(a, b - {o});
  }

  lemma {:induction false} SubsetSize<T>(a: set<T>, b: set<T>)
    requires a <= b
    ensures |a| <= |b|
    decreases a
  {
    if a != {} {
      var x :| x in a;
      SubsetSize(a - {x}, b - {x});
    }
  }
}
