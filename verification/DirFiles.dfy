/** Directory handles of the key-value file system: listing a directory page by page. */
module DirFiles {
  import opened Paths
  import opened Trees
  import opened TreeOps
  import opened KeyValue
  import opened KeyValueFS
  import opened Wrappers

  /** Crashed is Go's panic on a slice whose start lies behind its end. */
  datatype PageError = Fine | NotADirectory | Gone | Crashed

  // ---------- pages of a list ----------

  /** Where the page asked for at an offset begins and ends. */
  function PageStart(offset: nat, n: int): nat {
    if n <= 0 then 0 else offset
  }

  function PageEnd(size: nat, offset: nat, n: int): nat {
    if n <= 0 || size < offset + n then size else offset + n
  }

  /** All pages that a sequence of requests gets, starting at an offset, and whether the last one
      crashed. */
  function Pages<T>(all: seq<T>, offset: nat, requests: seq<int>): (seq<seq<T>>, bool)
    decreases |requests|
  {
    if requests == [] then ([], false) else
      var start, end := PageStart(offset, requests[0]), PageEnd(|all|, offset, requests[0]);
      if end < start then ([], true) else
        var (rest, crashed) := Pages(all, offset + end - start, requests[1..]);
        ([all[start..end]] + rest, crashed)
  }

  function Concat<T>(pages: seq<seq<T>>): seq<T> {
    if pages == [] then [] else pages[0] + Concat(pages[1..])
  }

  function Sum(requests: seq<int>): int {
    if requests == [] then 0 else requests[0] + Sum(requests[1..])
  }

  /** Where asking for k more entries ends. */
  function Upto(size: nat, offset: nat, k: int): int {
    if size < offset + k then size else offset + k
  }

  lemma SumNotNegative(requests: seq<int>)
    requires forall n | n in requests :: 0 < n
    ensures 0 <= Sum(requests)
  {
    if requests != [] {
      assert requests[0] in requests && forall n | n in requests[1..] :: n in requests;
    }
  }

  /** Requests for positive numbers of entries never crash, and their pages put together are the
      list, as far as it was asked for: nothing twice, nothing left out, nothing out of order. */
  lemma {:induction false} PagesCover<T>(all: seq<T>, offset: nat, requests: seq<int>)
    requires offset <= |all| && forall n | n in requests :: 0 < n
    ensures 0 <= Sum(requests)
    ensures var (pages, crashed) := Pages(all, offset, requests);
            !crashed && |pages| == |requests| && Concat(pages) == all[offset..Upto(|all|, offset, Sum(requests))]
    decreases |requests|
  {
    SumNotNegative(requests);
    if requests == [] {
      assert all[offset..offset] == [];
    } else {
      var n, rest := requests[0], requests[1..];
      assert n in requests && forall m | m in rest :: m in requests;
      var end := PageEnd(|all|, offset, n);
      PagesCover(all, end, rest);
      assert requests == [n] + rest;
      CoverStep(all, offset, n, rest);
    }
  }

  lemma CoverStep<T>(all: seq<T>, offset: nat, n: int, rest: seq<int>)
    requires offset <= |all| && 0 < n && 0 <= Sum(rest)
    requires var end := PageEnd(|all|, offset, n);
             var (pages, crashed) := Pages(all, end, rest);
             !crashed && |pages| == |rest| && Concat(pages) == all[end..Upto(|all|, end, Sum(rest))]
    ensures var (pages, crashed) := Pages(all, offset, [n] + rest);
            !crashed && |pages| == |rest| + 1 && Concat(pages) == all[offset..Upto(|all|, offset, Sum([n] + rest))]
  {
    var end := PageEnd(|all|, offset, n);
    assert ([n] + rest)[1..] == rest;
    assert Upto(|all|, offset, Sum([n] + rest)) == Upto(|all|, end, Sum(rest));
    PagesStep(all, offset, n, rest);
    ConcatFirst(all[offset..end], Pages(all, end, rest).0);
    Slices(all, offset, end, Upto(|all|, end, Sum(rest)));
  }

  lemma Slices<T>(all: seq<T>, i: nat, j: nat, k: nat)
    requires i <= j <= k <= |all|
    ensures all[i..j] + all[j..k] == all[i..k]
  {
  }

  lemma ConcatFirst<T>(page: seq<T>, pages: seq<seq<T>>)
    ensures Concat([page] + pages) == page + Concat(pages)
  {
    assert ([page] + pages)[1..] == pages;
  }

  lemma PagesStep<T>(all: seq<T>, offset: nat, n: int, requests: seq<int>)
    ensures var start, end := PageStart(offset, n), PageEnd(|all|, offset, n);
            Pages(all, offset, [n] + requests) ==
            if end < start then ([], true)
            else var (rest, crashed) := Pages(all, offset + end - start, requests); ([all[start..end]] + rest, crashed)
  {
    assert ([n] + requests)[1..] == requests;
  }

  /** A request without a limit gets the whole list, but also moves the offset on by its length.
      Right at the start that is the end of the list, and limited requests get nothing more... */
  lemma LimitedAfterUnlimited<T>(all: seq<T>, n: int, next: int)
    requires n <= 0 && 0 < next
    ensures Pages(all, 0, [n, next]) == ([all, []], false)
  {
    assert [n, next] == [n] + [next];
    PagesStep(all, 0, n, [next]);
    PagesStep(all, |all|, next, []);
    assert [next] + [] == [next] && all[0..|all|] == all && all[|all|..|all|] == [];
    assert [all] + ([[]] + []) == [all, []];
  }

  /** Some request is for a limited number of entries. */
  ghost predicate HasLimited(requests: seq<int>) {
    exists j :: 0 <= j < |requests| && 0 < requests[j]
  }

  /** Some limited request comes after an unlimited one at place `from` or later. */
  ghost predicate LimitedLater(requests: seq<int>, from: nat) {
    exists i, j :: from <= i < j < |requests| && requests[i] <= 0 < requests[j]
  }

  lemma HasLimitedRest(requests: seq<int>)
    requires requests != []
    ensures HasLimited(requests) <==> 0 < requests[0] || HasLimited(requests[1..])
  {
    if j :| 0 <= j < |requests| && 0 < requests[j] {
      assert 0 < j ==> requests[1..][j - 1] == requests[j];
    }
    if j :| 0 <= j < |requests[1..]| && 0 < requests[1..][j] {
      assert requests[j + 1] == requests[1..][j];
    }
  }

  lemma LimitedLaterRest(requests: seq<int>)
    requires requests != []
    ensures LimitedLater(requests, 0) <==>
            (requests[0] <= 0 && HasLimited(requests[1..])) || LimitedLater(requests[1..], 0)
    ensures LimitedLater(requests, 1) <==> LimitedLater(requests[1..], 0)
  {
    var rest := requests[1..];
    assert forall i | 0 < i < |requests| :: rest[i - 1] == requests[i];
    forall i, j | 0 <= i < j < |requests| && requests[i] <= 0 < requests[j]
      ensures if i == 0 then HasLimited(rest) else LimitedLater(rest, 0)
    {
      assert 0 < rest[j - 1];
      if 0 < i { assert rest[i - 1] <= 0; }
    }
    forall i, j | 0 <= i < j < |rest| && rest[i] <= 0 < rest[j]
      ensures LimitedLater(requests, 1) && LimitedLater(requests, 0)
    {
      assert requests[i + 1] <= 0 < requests[j + 1];
    }
    if j :| 0 <= j < |rest| && 0 < rest[j] { assert requests[j + 1] == rest[j]; }
  }

  /** From any offset: past the end the first limited request crashes; within the list, a limited
      one after an unlimited one does, where at the very start the first request does not count. */
  lemma {:induction false} CrashFrom<T>(all: seq<T>, offset: nat, requests: seq<int>)
    ensures Pages(all, offset, requests).1 <==>
            if |all| < offset then HasLimited(requests)
            else all != [] && LimitedLater(requests, if offset == 0 then 1 else 0)
    decreases |requests|
  {
    if requests != [] {
      var start, end := PageStart(offset, requests[0]), PageEnd(|all|, offset, requests[0]);
      HasLimitedRest(requests);
      LimitedLaterRest(requests);
      if start <= end { CrashFrom(all, offset + end - start, requests[1..]); }
    }
  }

  /** A sequence of requests crashes exactly when the list is not empty and a limited request
      follows an unlimited one that was not the first. */
  lemma CrashIff<T>(all: seq<T>, requests: seq<int>)
    ensures Pages(all, 0, requests).1 <==>
            all != [] && exists i, j :: 0 < i < j < |requests| && requests[i] <= 0 < requests[j]
  {
    CrashFrom(all, 0, requests);
    assert LimitedLater(requests, 1) <==> exists i, j :: 0 < i < j < |requests| && requests[i] <= 0 < requests[j];
  }

  /** So after a page and an unlimited request, a limited one crashes unless the list is empty... */
  lemma LimitedAfterBoth<T>(all: seq<T>, first: int, n: int, next: int)
    requires n <= 0 && 0 < next
    ensures Pages(all, 0, [first, n, next]).1 <==> all != []
  {
    var requests := [first, n, next];
    CrashIff(all, requests);
    assert requests[1] <= 0 < requests[2];
  }

  // ---------- the handle ----------

  class DirFile<D> {
    const fs: FS<D>
    const path: string
    const isDir: bool
    var names: Option<seq<string>>  // read from the store once, on first use
    var offset: nat

    ghost predicate Valid()
      reads this
    {
      Parse(path).Good? && (names.Some? ==> isDir && EachOnce(names.value) && forall c | c in names.value :: IsName(c))
    }

    constructor (fs: FS<D>, path: string, isDir: bool)
      requires Parse(path).Good?
      ensures Valid() && this.fs == fs && this.path == path && this.isDir == isDir && offset == 0 && names == None
    {
      this.fs, this.path, this.isDir, offset, names := fs, path, isDir, 0, None;
    }

    /** The directory's names when first asked, and the same ever after. */
    method ReadDirNames() returns (all: seq<string>, err: PageError)
      requires Valid() && fs.store.Idle()
      modifies this`names
      ensures Valid()
      ensures err == if isDir then Fine else NotADirectory
      ensures isDir ==> names == Some(all)
      ensures old(names).Some? ==> names == old(names)
      ensures isDir && old(names).None? ==> forall c :: c in all <==> IsChild(fs.store.tree, Parse(path).path, c)
    {
      if !isDir {
        return [], NotADirectory;
      }
      if names.None? {
        var found := fs.store.ReadDirNames(path);
        names := Some(found);
      }
      return names.value, Fine;
    }

    /** A page of entries; each must still exist to be returned, and the offset moves only if all do. */
    method ReadDir(n: int) returns (page: seq<string>, err: PageError)
      requires Valid() && fs.store.Idle()
      modifies this, fs.store
      ensures Valid() && fs.store.Idle() && fs.store.tree == old(fs.store.tree)
      ensures err == NotADirectory <==> !isDir
      ensures isDir ==>
                names.Some? && (old(names).Some? ==> names == old(names)) &&
                PageRead(fs.store.tree, Parse(path).path, names.value, old(offset), n, offset, page, err)
      ensures isDir && old(names).None? ==>
                forall c :: c in names.value <==> IsChild(fs.store.tree, Parse(path).path, c)
      ensures !isDir ==> offset == old(offset)
    {
      var all, namesErr := ReadDirNames();
      if namesErr != Fine {
        return [], namesErr;
      }
      var start, end := offset, offset + n;
      if n <= 0 {
        start, end := 0, |all|;
      } else if |all| < end {
        end := |all|;
      }
      if end < start {
        return [], Crashed;
      }
      page, err := Entries(all[start..end]);
      if err == Fine {
        offset := offset + (end - start);
      }
    }

    /** Stats each of the names. */
    method Entries(some: seq<string>) returns (page: seq<string>, err: PageError)
      requires Parse(path).Good? && fs.store.Idle() && forall c | c in some :: IsName(c)
      modifies fs.store
      ensures fs.store.Idle() && fs.store.tree == old(fs.store.tree)
      ensures if forall c | c in some :: IsChild(fs.store.tree, Parse(path).path, c) then err == Fine && page == some
              else err == Gone
    {
      ghost var t, p := fs.store.tree, Parse(path).path;
      page := [];
      for i := 0 to |some|
        invariant fs.store.Idle() && fs.store.tree == t
        invariant page == some[..i] && forall c | c in page :: IsChild(t, p, c)
      {
        JoinChild(path, some[i]);
        var _, statErr := fs.Stat(Join([path, some[i]]));
        if statErr != Nil {
          assert !IsChild(t, p, some[i]) && some[i] in some;
          return [], Gone;
        }
        page := page + [some[i]];
      }
      assert some[..|some|] == some;
      return page, Fine;
    }

    /** A sequence of requests, up to the first that fails.  While all the names still exist, the
        pages are those of the list. */
    method ReadPages(requests: seq<int>) returns (pages: seq<seq<string>>, err: PageError)
      requires Valid() && fs.store.Idle() && isDir
      modifies this, fs.store
      ensures Valid() && fs.store.Idle() && fs.store.tree == old(fs.store.tree)
      ensures requests == [] ==> pages == [] && err == Fine && names == old(names) && offset == old(offset)
      ensures requests != [] ==> names.Some? && (old(names).Some? ==> names == old(names))
      ensures requests != [] && (forall c | c in names.value :: IsChild(fs.store.tree, Parse(path).path, c)) ==>
                (pages, err == Crashed) == Pages(names.value, old(offset), requests) && err in {Fine, Crashed}
      ensures requests != [] && old(names).None? ==>
                forall c :: c in names.value <==> IsChild(fs.store.tree, Parse(path).path, c)
      decreases |requests|
    {
      if requests == [] {
        return [], Fine;
      }
      var page;
      page, err := ReadDir(requests[0]);
      if err != Fine {
        return [], err;
      }
      var rest;
      rest, err := ReadPages(requests[1..]);
      pages := [page] + rest;
    }
  }

  ghost predicate PageRead<D>(t: Tree<D>, p: Path, all: seq<string>, before: nat, n: int,
                              after: nat, page: seq<string>, err: PageError)
  {
    var start, end := PageStart(before, n), PageEnd(|all|, before, n);
    if end < start then err == Crashed && after == before
    else if forall c | c in all[start..end] :: IsChild(t, p, c) then
      err == Fine && page == all[start..end] && after == before + end - start
    else err == Gone && after == before
  }
}
