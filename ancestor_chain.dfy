/**
 * `retrieveWebCrawlerObjectsParents` (connectors/src/connectors/webcrawler/index.ts): the walk up
 * the `parentUrl` pointers of the Folder table from one url, bounded by a visited set so that it
 * ends on cyclic data. The starting url is never put in the visited set, so on a cycle through it
 * the chain ends by repeating it once.
 */
module AncestorChain {
  import opened Results
  import opened WebcrawlerRecords
  import PermissionTree

  /** The folder row `findOne({ where: { connectorId, url } })` returns. */
  function FolderAt(folders: seq<Folder>, connectorId: nat, url: string): Option<Folder> {
    PermissionTree.FindOne(folders, (f: Folder) => f.connectorId == connectorId && f.url == url)
  }

  /** The non-empty parent url of the folder at `url`, if there is such a folder and it has one. */
  function ParentOf(folders: seq<Folder>, connectorId: nat, url: string): (r: Option<string>)
    ensures r.Some? ==> r.value in ParentUrls(folders, connectorId) && r.value != ""
  {
    match FolderAt(folders, connectorId, url)
    case None => None
    case Some(folder) => if Truthy(folder.parentUrl) then Some(folder.parentUrl.value) else None
  }

  /** Every non-empty parent url of the connector's folders: a bound on how far the walk can go. */
  function ParentUrls(folders: seq<Folder>, connectorId: nat): set<string> {
    set f | f in folders && f.connectorId == connectorId && Truthy(f.parentUrl) :: f.parentUrl.value
  }

  /** No url repeats in `chain[1..]`. */
  ghost predicate DistinctAfterFirst(chain: seq<string>) {
    forall i, j :: 1 <= i < j < |chain| ==> chain[i] != chain[j]
  }

  /** Each url after the first is the parent of the one before it. */
  ghost predicate FollowsParents(folders: seq<Folder>, connectorId: nat, chain: seq<string>) {
    forall i :: 0 <= i < |chain| - 1 ==> ParentOf(folders, connectorId, chain[i]) == Some(chain[i + 1])
  }

  /**
   * The chain the walk returns from `start`: it starts there, follows parent pointers, repeats
   * nothing after the first entry, and stops at a url with no parent or whose parent it has
   * already listed after the first entry.
   */
  ghost predicate IsParentChain(folders: seq<Folder>, connectorId: nat, start: string, chain: seq<string>) {
    && |chain| >= 1 && chain[0] == start
    && FollowsParents(folders, connectorId, chain)
    && DistinctAfterFirst(chain)
    && var next := ParentOf(folders, connectorId, chain[|chain| - 1]);
       next.None? || next.value in chain[1..]
  }

  /** `retrieveWebCrawlerObjectsParents`; it always succeeds. */
  method RetrieveObjectsParents(folders: seq<Folder>, connectorId: nat, internalId: string)
    returns (r: Result<seq<string>, string>)
    ensures r.Ok? && IsParentChain(folders, connectorId, internalId, r.value)
  {
    var parents: seq<string> := [internalId];
    var ptr := internalId;
    var visited: set<string> := {};
    // The source's `do { ... } while (ptr)`: after each pass `ptr` is a non-empty parent url, so
    // the condition always holds and the loop ends only through its returns.
    while true
      invariant |parents| >= 1 && parents[0] == internalId && ptr == parents[|parents| - 1]
      invariant FollowsParents(folders, connectorId, parents)
      invariant DistinctAfterFirst(parents)
      invariant forall u :: u in visited <==> u in parents[1..]
      invariant visited <= ParentUrls(folders, connectorId)
      decreases |ParentUrls(folders, connectorId) - visited|
    {
      var folder := FolderAt(folders, connectorId, ptr);
      if folder.None? || !Truthy(folder.value.parentUrl) {
        return Ok(parents);
      }
      var parentUrl := folder.value.parentUrl.value;
      if parentUrl in visited {
        // "Found a cycle in the parents tree" is logged here.
        return Ok(parents);
      }
      assert ParentOf(folders, connectorId, ptr) == Some(parentUrl);
      assert parentUrl in ParentUrls(folders, connectorId) - visited;
      var extended := parents + [parentUrl];
      ExtendChain(folders, connectorId, parents, parentUrl);
      parents := extended;
      ptr := parentUrl;
      visited := visited + {ptr};
    }
  }

  /** One more step of the walk keeps the chain following parents and repetition-free after its first entry. */
  lemma ExtendChain(folders: seq<Folder>, connectorId: nat, chain: seq<string>, next: string)
    requires |chain| >= 1 && FollowsParents(folders, connectorId, chain) && DistinctAfterFirst(chain)
    requires ParentOf(folders, connectorId, chain[|chain| - 1]) == Some(next) && next !in chain[1..]
    ensures FollowsParents(folders, connectorId, chain + [next])
    ensures DistinctAfterFirst(chain + [next])
    ensures (chain + [next])[1..] == chain[1..] + [next]
  {
    var extended := chain + [next];
    assert extended[1..] == chain[1..] + [next];
    forall i | 0 <= i < |extended| - 1
      ensures ParentOf(folders, connectorId, extended[i]) == Some(extended[i + 1])
    {
      if i < |chain| - 1 {
        assert extended[i] == chain[i] && extended[i + 1] == chain[i + 1];
      }
    }
    forall i, j | 1 <= i < j < |extended| ensures extended[i] != extended[j] {
      if j < |chain| {
        assert extended[i] == chain[i] && extended[j] == chain[j];
      } else {
        assert extended[i] == chain[1..][i - 1];
      }
    }
  }

  /** The chain is determined by the folder table: two chains from the same start are equal. */
  lemma {:induction false} ParentChainUnique(folders: seq<Folder>, connectorId: nat, start: string, c1: seq<string>, c2: seq<string>)
    requires IsParentChain(folders, connectorId, start, c1)
    requires IsParentChain(folders, connectorId, start, c2)
    ensures c1 == c2
  {
    ParentChainNotShorter(folders, connectorId, start, c1, c2);
    ParentChainNotShorter(folders, connectorId, start, c2, c1);
    CommonPrefix(folders, connectorId, c1, c2, |c1|);
    assert c1 == c1[..|c1|] && c2 == c2[..|c2|];
  }

  /** Two parent-following chains from the same url agree on their first `n` entries. */
  lemma {:induction false} CommonPrefix(folders: seq<Folder>, connectorId: nat, c1: seq<string>, c2: seq<string>, n: nat)
    requires |c1| >= 1 && |c2| >= 1 && c1[0] == c2[0]
    requires FollowsParents(folders, connectorId, c1) && FollowsParents(folders, connectorId, c2)
    requires n <= |c1| && n <= |c2|
    ensures c1[..n] == c2[..n]
  {
    if n > 1 {
      CommonPrefix(folders, connectorId, c1, c2, n - 1);
      assert c1[n - 1] == c2[n - 1] by {
        assert c1[n - 2] == c2[n - 2] by { assert c1[..n - 1][n - 2] == c2[..n - 1][n - 2]; }
      }
      assert c1[..n] == c1[..n - 1] + [c1[n - 1]];
      assert c2[..n] == c2[..n - 1] + [c2[n - 1]];
    } else if n == 1 {
      assert c1[..1] == [c1[0]];
      assert c2[..1] == [c2[0]];
    }
  }

  /** A chain cannot stop early: no valid chain from the same start is longer than another. */
  lemma ParentChainNotShorter(folders: seq<Folder>, connectorId: nat, start: string, short: seq<string>, long: seq<string>)
    requires IsParentChain(folders, connectorId, start, short)
    requires IsParentChain(folders, connectorId, start, long)
    ensures |long| <= |short|
  {
    var n := |short|;
    if n < |long| {
      CommonPrefix(folders, connectorId, short, long, n);
      LongerChainRepeats(folders, connectorId, short, long);
      assert false;
    }
  }

  /** A parent-following sequence that goes on past a finished chain repeats one of the chain's entries. */
  lemma LongerChainRepeats(folders: seq<Folder>, connectorId: nat, short: seq<string>, long: seq<string>)
    requires |short| >= 1 && IsParentChain(folders, connectorId, short[0], short)
    requires FollowsParents(folders, connectorId, long)
    requires |short| < |long| && long[..|short|] == short
    ensures exists j :: 1 <= j < |short| && long[j] == long[|short|]
  {
    var n := |short|;
    assert short[n - 1] == long[n - 1];
    assert ParentOf(folders, connectorId, short[n - 1]) == Some(long[n]);
    assert long[n] in short[1..];
    var j :| 1 <= j < n && short[j] == long[n];
    assert long[j] == short[j];
  }

  /** Every entry after the first is a distinct parent url, so the chain has at most one more entry than there are parent urls. */
  lemma ParentChainLength(folders: seq<Folder>, connectorId: nat, start: string, chain: seq<string>)
    requires IsParentChain(folders, connectorId, start, chain)
    ensures |chain| <= |ParentUrls(folders, connectorId)| + 1
  {
    var rest := chain[1..];
    var restSet := set i | 0 <= i < |rest| :: rest[i];
    assert restSet <= ParentUrls(folders, connectorId) by {
      forall i | 0 <= i < |rest| ensures rest[i] in ParentUrls(folders, connectorId) {
        assert ParentOf(folders, connectorId, chain[i]) == Some(chain[i + 1]);
      }
    }
    DistinctCardinality(rest);
    SubsetCardinality(restSet, ParentUrls(folders, connectorId));
  }

  lemma {:induction false} SubsetCardinality(a: set<string>, b: set<string>)
    requires a <= b
    ensures |a| <= |b|
  {
    if a != {} {
      var x :| x in a;
      SubsetCardinality(a - {x}, b - {x});
    }
  }

  /** A repetition-free sequence has as many distinct elements as it has entries. */
  lemma {:induction false} DistinctCardinality(s: seq<string>)
    requires forall i, j :: 0 <= i < j < |s| ==> s[i] != s[j]
    ensures |set i | 0 <= i < |s| :: s[i]| == |s|
  {
    if |s| > 0 {
      var init := s[..|s| - 1];
      DistinctCardinality(init);
      var a := set i | 0 <= i < |init| :: init[i];
      var b := set i | 0 <= i < |s| :: s[i];
      assert b == a + {s[|s| - 1]};
      assert s[|s| - 1] !in a;
    }
  }

  /** When exactly one row of the connector has the url, the lookup finds it. */
  lemma FolderAtUnique(folders: seq<Folder>, connectorId: nat, folder: Folder)
    requires folder in folders && folder.connectorId == connectorId
    requires forall f :: f in folders && f.connectorId == connectorId && f.url == folder.url ==> f == folder
    ensures FolderAt(folders, connectorId, folder.url) == Some(folder)
  {
  }

  /**
   * On the cyclic folder table A -> B -> C -> A the walk from A returns [A, B, C, A]: it ends,
   * and only the starting url appears twice.
   */
  lemma ThreeCycle(connectorId: nat, configurationId: nat, fa: Folder, fb: Folder, fc: Folder, a: string, b: string, c: string)
    requires a != b && b != c && a != c && a != "" && b != "" && c != ""
    requires fa == Folder(connectorId, configurationId, a, "", Some(b), 0)
    requires fb == Folder(connectorId, configurationId, b, "", Some(c), 0)
    requires fc == Folder(connectorId, configurationId, c, "", Some(a), 0)
    ensures IsParentChain([fa, fb, fc], connectorId, a, [a, b, c, a])
    ensures forall chain :: IsParentChain([fa, fb, fc], connectorId, a, chain) ==> chain == [a, b, c, a]
  {
    var folders := [fa, fb, fc];
    assert FolderAt(folders, connectorId, a) == Some(fa);
    FolderAtUnique(folders, connectorId, fb);
    FolderAtUnique(folders, connectorId, fc);
    var chain := [a, b, c, a];
    assert chain[1..] == [b, c, a];
    forall other | IsParentChain(folders, connectorId, a, other) ensures other == chain {
      ParentChainUnique(folders, connectorId, a, other, chain);
    }
  }
}
