/** The path built for a search hit, read back. With a repository key and a
    file name free of `/`, the first and the last `/` of the path separate its
    three parts, so the path determines the item up to the directory segment;
    an item at the repository root leaves that segment empty. */
module ItemPaths {
  import opened Wrappers
  import opened Platform
  import opened Worker

  /** The three parts an item path is joined from. */
  datatype Location = Location(repo: string, dir: string, name: string)

  /** The index of the first `/` in `s`, or `|s|` when there is none. */
  function FirstSlash(s: string): (k: nat)
    ensures k <= |s|
    ensures forall i :: 0 <= i < k ==> s[i] != '/'
    ensures k < |s| ==> s[k] == '/'
    decreases |s|
  {
    if |s| == 0 || s[0] == '/' then 0 else 1 + FirstSlash(s[1..])
  }

  /** The index of the last `/` in `s`, or `-1` when there is none. */
  function LastSlash(s: string): (k: int)
    ensures -1 <= k < |s|
    ensures forall i :: k < i < |s| ==> s[i] != '/'
    ensures k >= 0 ==> s[k] == '/'
    decreases |s|
  {
    if |s| == 0 then -1
    else if s[|s| - 1] == '/' then |s| - 1
    else LastSlash(s[..|s| - 1])
  }

  /** Splits a path at its first and its last `/`; there must be two. */
  function SplitItemPath(p: string): Option<Location> {
    var f := FirstSlash(p);
    var l := LastSlash(p);
    if f < l then Some(Location(p[..f], p[f + 1..l], p[l + 1..])) else None
  }

  /** Cutting `p` at two `/` positions and joining the parts back gives `p`. */
  lemma JoinAtSlashes(p: string, f: nat, l: nat)
    requires f < l < |p| && p[f] == '/' && p[l] == '/'
    ensures p[..f] + "/" + p[f + 1..l] + "/" + p[l + 1..] == p
  {
    assert p[l..] == "/" + p[l + 1..];
    assert p[f + 1..] == p[f + 1..l] + p[l..];
    assert p[f..] == "/" + p[f + 1..];
    assert p == p[..f] + p[f..];
  }

  /** A stretch of `p` without any `/` position holds no `/`. */
  lemma NoSlashBetween(p: string, lo: nat, hi: nat)
    requires lo <= hi <= |p|
    requires forall i :: lo <= i < hi ==> p[i] != '/'
    ensures '/' !in p[lo..hi]
  {
    assert forall i :: 0 <= i < hi - lo ==> p[lo..hi][i] == p[lo + i];
  }

  /** Where the separators of a joined path lie, given `/`-free outer parts. */
  lemma SlashesOfJoin(repo: string, dir: string, name: string)
    requires '/' !in repo && '/' !in name
    ensures var p := repo + "/" + dir + "/" + name;
            var l := |repo| + 1 + |dir|;
            && l < |p| && p[|repo|] == '/' && p[l] == '/'
            && (forall i :: 0 <= i < |repo| ==> p[i] != '/')
            && (forall i :: l < i < |p| ==> p[i] != '/')
            && p[..|repo|] == repo && p[|repo| + 1..l] == dir && p[l + 1..] == name
  {
    var p := repo + "/" + dir + "/" + name;
    var l := |repo| + 1 + |dir|;
    assert forall i :: 0 <= i < |repo| ==> p[i] == repo[i];
    assert forall i :: l < i < |p| ==> p[i] == name[i - l - 1];
  }

  /** Reading back a built path recovers the repository key, the directory
      segment (empty for the root `.`) and the file name. */
  lemma SplitJoin(item: Item)
    requires '/' !in item.repo && '/' !in item.name
    ensures SplitItemPath(ItemPath(item)) == Some(Location(item.repo, DirSegment(item.path), item.name))
  {
    var p := ItemPath(item);
    SlashesOfJoin(item.repo, DirSegment(item.path), item.name);
    var f := FirstSlash(p);
    var l := LastSlash(p);
    assert f == |item.repo|;
    assert l == |item.repo| + 1 + |DirSegment(item.path)|;
  }

  /** Anything that splits is joined back from its parts, and its outer parts
      hold no `/`. */
  lemma JoinSplit(p: string)
    requires SplitItemPath(p).Some?
    ensures var loc := SplitItemPath(p).value;
            && '/' !in loc.repo && '/' !in loc.name
            && loc.repo + "/" + loc.dir + "/" + loc.name == p
  {
    var f := FirstSlash(p);
    var l := LastSlash(p);
    JoinAtSlashes(p, f, l);
    NoSlashBetween(p, 0, f);
    NoSlashBetween(p, l + 1, |p|);
  }

  /** An item at the repository root yields `repo//name`: the emptied directory
      segment keeps a separator on each side. */
  lemma RootItemPath(repo: string, name: string)
    requires '/' !in repo && '/' !in name
    ensures ItemPath(Item(repo, ".", name)) == repo + "//" + name
    ensures SplitItemPath(repo + "//" + name) == Some(Location(repo, "", name))
  {
    SplitJoin(Item(repo, ".", name));
  }

  /** Two items with `/`-free repository keys and file names get the same path
      exactly when they agree on the key, the file name and the directory
      segment; so the root `.` and an empty path collide. */
  lemma ItemPathInjective(a: Item, b: Item)
    requires '/' !in a.repo && '/' !in a.name && '/' !in b.repo && '/' !in b.name
    ensures ItemPath(a) == ItemPath(b)
            <==> a.repo == b.repo && a.name == b.name && DirSegment(a.path) == DirSegment(b.path)
  {
    SplitJoin(a);
    SplitJoin(b);
  }
}
