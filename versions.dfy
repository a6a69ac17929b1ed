/** `UpdateChecker`: comparison of release tags, the release lookups, and
    the latest-version and update-available decision taken after the
    release list has been fetched. */
module Versions {
  import opened Wrappers
  import opened Strings
  import opened Sort

  // ---------------------------------------------------------------------
  // Version components
  // ---------------------------------------------------------------------

  /** `parseVersionPart(part)` as written: the text before the first `-`,
      read by `Integer.parseInt`, 0 when it is not a number. A part made
      only of dashes splits into no pieces at all, and `[0]` throws an
      `ArrayIndexOutOfBoundsException` the `NumberFormatException` handler
      does not catch. */
  function ParseVersionPartAsWritten(part: string): (r: Result<int, JavaException>)
    ensures r.Success? ==> IsInt32(r.value)
    ensures r.Failure? ==> r.error == IndexOutOfBounds && |part| > 0
  {
    var pieces := Split(part, "-");
    if |pieces| == 0 then Failure(IndexOutOfBounds) else Success(ParseInt(pieces[0]).GetOr(0))
  }

  /** `parseVersionPart(part)` as intended: a part without a leading number
      counts 0, the dash-only part included. */
  function ParseVersionPart(part: string): (n: int)
    ensures IsInt32(n)
    ensures ParseVersionPartAsWritten(part).Success? ==> ParseVersionPartAsWritten(part) == Success(n)
  {
    var pieces := Split(part, "-");
    if |pieces| == 0 then 0 else ParseInt(pieces[0]).GetOr(0)
  }

  /** The part `-` (as in the tag `1.-`) throws as written and counts 0 as
      intended. */
  lemma DashPartThrows()
    ensures ParseVersionPartAsWritten("-") == Failure(IndexOutOfBounds)
    ensures ParseVersionPart("-") == 0
  {
    var s := "-";
    assert OccursAt(s, "-", 0);
    assert SplitRaw(s, "-") == ["", ""] by {
      assert s[1..] == "";
    }
  }

  /** A numeric part, with or without a suffix after `-`, reads as its number:
      `12-SNAPSHOT` counts 12. */
  lemma SuffixIgnored(n: nat, suffix: string)
    requires IsInt32(n)
    ensures ParseVersionPart(NatToString(n) + "-" + suffix) == n
  {
    var digits := NatToString(n);
    var s := digits + "-" + suffix;
    assert s == digits + ['-'] + suffix;
    assert OccursAt(s, "-", |digits|);
    SplitRawFirstPiece(digits, '-', suffix);
    var raw := SplitRaw(s, "-");
    assert raw[0] == digits && digits != "";
    assert |Split(s, "-")| > 0 && Split(s, "-")[0] == digits;
    ParseIntOfIntToString(n);
  }

  /** `v.startsWith("v") ? v.substring(1) : v`. */
  function StripV(v: string): (r: string)
    ensures v == r || v == "v" + r
    ensures StartsWith(v, "v") <==> v == "v" + r
  {
    if StartsWith(v, "v") then v[1..] else v
  }

  /** The components of a tag: the parts between dots. */
  function Parts(v: string): seq<string> {
    Split(StripV(v), ".")
  }

  /** The `i`-th component, 0 past the end (the zero padding). */
  function Component(ps: seq<string>, i: nat): int {
    if i < |ps| then ParseVersionPart(ps[i]) else 0
  }

  /** `Integer.compare(x, y)`. */
  function CompareInt(x: int, y: int): int {
    if x < y then -1 else if x > y then 1 else 0
  }

  /** The comparison loop from index `i` up to `n`: the sign at the first
      differing component, 0 if there is none. */
  function CompareFrom(a: seq<string>, b: seq<string>, i: nat, n: nat): (r: int)
    ensures -1 <= r <= 1
    decreases n - i
  {
    if i >= n then 0
    else if Component(a, i) != Component(b, i) then CompareInt(Component(a, i), Component(b, i))
    else CompareFrom(a, b, i + 1, n)
  }

  function Max(x: nat, y: nat): nat { if x < y then y else x }

  /** `compareVersions(v1, v2)`: a leading `v` dropped from each side, then
      the components compared over the longer list. */
  function CompareVersions(v1: string, v2: string): (r: int)
    ensures -1 <= r <= 1
  {
    var a, b := Parts(v1), Parts(v2);
    CompareFrom(a, b, 0, Max(|a|, |b|))
  }

  /** Components `i` to `k - 1` agree and component `k` differs. */
  predicate FirstDifferenceAt(a: seq<string>, b: seq<string>, i: nat, k: nat) {
    (forall j :: i <= j < k ==> Component(a, j) == Component(b, j)) && Component(a, k) != Component(b, k)
  }

  /** The result is the sign at the first differing component, and 0 exactly
      when all components agree. */
  lemma CompareFromIsFirstDifference(a: seq<string>, b: seq<string>, i: nat, n: nat)
    ensures CompareFrom(a, b, i, n) == 0 <==> forall k :: i <= k < n ==> Component(a, k) == Component(b, k)
    ensures CompareFrom(a, b, i, n) != 0 ==>
      exists k :: i <= k < n && FirstDifferenceAt(a, b, i, k) &&
        CompareFrom(a, b, i, n) == CompareInt(Component(a, k), Component(b, k))
  {
    CompareFromZero(a, b, i, n);
    CompareFromDifference(a, b, i, n);
  }

  lemma {:induction false} CompareFromZero(a: seq<string>, b: seq<string>, i: nat, n: nat)
    ensures CompareFrom(a, b, i, n) == 0 <==> forall k :: i <= k < n ==> Component(a, k) == Component(b, k)
    decreases n - i
  {
    if i < n && Component(a, i) == Component(b, i) {
      CompareFromZero(a, b, i + 1, n);
    }
  }

  lemma {:induction false} CompareFromDifference(a: seq<string>, b: seq<string>, i: nat, n: nat)
    ensures CompareFrom(a, b, i, n) != 0 ==>
      exists k :: i <= k < n && FirstDifferenceAt(a, b, i, k) &&
        CompareFrom(a, b, i, n) == CompareInt(Component(a, k), Component(b, k))
    decreases n - i
  {
    if i < n {
      if Component(a, i) != Component(b, i) {
        assert FirstDifferenceAt(a, b, i, i);
      } else {
        CompareFromDifference(a, b, i + 1, n);
        if CompareFrom(a, b, i + 1, n) != 0 {
          var k :| i + 1 <= k < n && FirstDifferenceAt(a, b, i + 1, k) &&
            CompareFrom(a, b, i + 1, n) == CompareInt(Component(a, k), Component(b, k));
          assert FirstDifferenceAt(a, b, i, k);
        }
      }
    }
  }

  lemma {:induction false} CompareFromAntisymmetric(a: seq<string>, b: seq<string>, i: nat, n: nat)
    ensures CompareFrom(a, b, i, n) == -CompareFrom(b, a, i, n)
    decreases n - i
  {
    if i < n && Component(a, i) == Component(b, i) {
      CompareFromAntisymmetric(a, b, i + 1, n);
    }
  }

  lemma {:induction false} CompareFromTransitive(a: seq<string>, b: seq<string>, c: seq<string>, i: nat, n: nat)
    requires CompareFrom(a, b, i, n) <= 0 && CompareFrom(b, c, i, n) <= 0
    ensures CompareFrom(a, c, i, n) <= 0
    decreases n - i
  {
    if i < n && Component(a, i) == Component(b, i) && Component(b, i) == Component(c, i) {
      CompareFromTransitive(a, b, c, i + 1, n);
    }
  }

  /** Comparing further than both lists reach changes nothing: the extra
      components are zeros on both sides. */
  lemma {:induction false} CompareFromPadded(a: seq<string>, b: seq<string>, i: nat, n: nat, m: nat)
    requires Max(|a|, |b|) <= n <= m
    ensures CompareFrom(a, b, i, m) == CompareFrom(a, b, i, n)
    decreases m - i
  {
    if i < m {
      CompareFromPadded(a, b, i + 1, n, m);
      if i >= n {
        assert Component(a, i) == 0 == Component(b, i);
        assert CompareFrom(a, b, i + 1, n) == 0;
      }
    }
  }

  /** `compare(a, a) == 0`. */
  lemma {:induction false} CompareFromReflexive(a: seq<string>, i: nat, n: nat)
    ensures CompareFrom(a, a, i, n) == 0
    decreases n - i
  {
    if i < n {
      CompareFromReflexive(a, i + 1, n);
    }
  }

  lemma CompareVersionsReflexive(v: string)
    ensures CompareVersions(v, v) == 0
  {
    CompareFromReflexive(Parts(v), 0, |Parts(v)|);
  }

  lemma CompareVersionsAntisymmetric(v1: string, v2: string)
    ensures CompareVersions(v1, v2) == -CompareVersions(v2, v1)
  {
    var a, b := Parts(v1), Parts(v2);
    assert Max(|a|, |b|) == Max(|b|, |a|);
    CompareFromAntisymmetric(a, b, 0, Max(|a|, |b|));
  }

  lemma CompareVersionsTransitive(v1: string, v2: string, v3: string)
    requires CompareVersions(v1, v2) <= 0 && CompareVersions(v2, v3) <= 0
    ensures CompareVersions(v1, v3) <= 0
  {
    var a, b, c := Parts(v1), Parts(v2), Parts(v3);
    var n := Max(Max(|a|, |b|), |c|);
    CompareFromPadded(a, b, 0, Max(|a|, |b|), n);
    CompareFromPadded(b, c, 0, Max(|b|, |c|), n);
    CompareFromPadded(a, c, 0, Max(|a|, |c|), n);
    CompareFromTransitive(a, b, c, 0, n);
  }

  /** A single leading `v` makes no difference: `v1.2` compares as `1.2`. */
  lemma LeadingVIgnored(v1: string, v2: string)
    requires !StartsWith(v1, "v")
    ensures CompareVersions("v" + v1, v2) == CompareVersions(v1, v2)
  {
    assert ("v" + v1)[..1] == "v";
    assert ("v" + v1)[1..] == v1;
  }

  // ---------------------------------------------------------------------
  // Releases
  // ---------------------------------------------------------------------

  /** A GitHub release as `checkForUpdates` records it, its tag in `version`. */
  datatype Release = Release(version: string, name: string, prerelease: bool,
                             publishedAt: string, description: string, downloadUrl: Option<string>)

  /** The release's tag is `version` or `"v" + version`, ignoring case. */
  predicate Matches(r: Release, version: string) {
    EqualsIgnoreCase(r.version, version) || EqualsIgnoreCase(r.version, "v" + version)
  }

  /** `findRelease(version)`: the index of the first matching release. */
  function FindRelease(rs: seq<Release>, version: string): (r: Option<nat>)
    ensures r.Some? ==> r.value < |rs| && Matches(rs[r.value], version)
    ensures r.Some? ==> forall j :: 0 <= j < r.value ==> !Matches(rs[j], version)
    ensures r.None? <==> forall j :: 0 <= j < |rs| ==> !Matches(rs[j], version)
  {
    if rs == [] then None
    else if Matches(rs[0], version) then Some(0)
    else match FindRelease(rs[1..], version)
      case None => None
      case Some(k) => Some(k + 1)
  }

  /** The latest version: the first release that is not a prerelease, else
      the first release. */
  function LatestRelease(rs: seq<Release>): (r: Release)
    requires |rs| > 0
    ensures r in rs
    ensures !r.prerelease ==> exists k :: 0 <= k < |rs| && rs[k] == r && forall j :: 0 <= j < k ==> rs[j].prerelease
    ensures r.prerelease ==> r == rs[0] && forall j :: 0 <= j < |rs| ==> rs[j].prerelease
  {
    if !rs[0].prerelease || |rs| == 1 then rs[0]
    else
      var l := LatestRelease(rs[1..]);
      if l.prerelease then rs[0] else
        var k :| 0 <= k < |rs[1..]| && rs[1..][k] == l && forall j :: 0 <= j < k ==> rs[1..][j].prerelease;
        assert rs[k + 1] == l;
        l
  }

  /** The stable releases, in list order. */
  function Stable(rs: seq<Release>): (r: seq<Release>)
    ensures forall x :: x in r <==> x in rs && !x.prerelease
  {
    if rs == [] then []
    else (if rs[0].prerelease then [] else [rs[0]]) + Stable(rs[1..])
  }

  /** The sort order of `getRelativeVersion`: `compareVersions(r2, r1)`, so
      newer first. */
  predicate NewerOrSame(r1: Release, r2: Release) {
    CompareVersions(r2.version, r1.version) <= 0
  }

  lemma NewerOrSameIsPreorder()
    ensures TotalPreorder(NewerOrSame)
  {
    forall x, y ensures NewerOrSame(x, y) || NewerOrSame(y, x) {
      CompareVersionsAntisymmetric(x.version, y.version);
    }
    forall x, y, z | NewerOrSame(x, y) && NewerOrSame(y, z) ensures NewerOrSame(x, z) {
      CompareVersionsTransitive(z.version, y.version, x.version);
    }
  }

  /** The neighbour `relative` asks for at position `i`, if it exists. */
  function Neighbour(sorted: seq<Release>, i: nat, relative: string): Option<Release>
    requires i < |sorted|
  {
    if EqualsIgnoreCase(relative, "next") && i > 0 then Some(sorted[i - 1])
    else if EqualsIgnoreCase(relative, "previous") && i < |sorted| - 1 then Some(sorted[i + 1])
    else None
  }

  /** The loop of `getRelativeVersion` from position `i`: the first position
      holding the current version that has the asked-for neighbour. */
  function RelativeFrom(sorted: seq<Release>, current: string, relative: string, i: nat): (r: Option<Release>)
    requires i <= |sorted|
    ensures r.Some? ==> exists k :: i <= k < |sorted| && CompareVersions(sorted[k].version, current) == 0 && r == Neighbour(sorted, k, relative)
    ensures r.None? ==> forall k :: i <= k < |sorted| && CompareVersions(sorted[k].version, current) == 0 ==> Neighbour(sorted, k, relative).None?
    decreases |sorted| - i
  {
    if i == |sorted| then None
    else if CompareVersions(sorted[i].version, current) == 0 && Neighbour(sorted, i, relative).Some? then Neighbour(sorted, i, relative)
    else RelativeFrom(sorted, current, relative, i + 1)
  }

  /** `getRelativeVersion(relative)`: the stable releases sorted newest
      first, then the neighbour of the current version. */
  function RelativeVersion(rs: seq<Release>, current: string, relative: string): (r: Option<Release>)
    ensures r.Some? ==> r.value in rs && !r.value.prerelease
    ensures r.Some? ==> EqualsIgnoreCase(relative, "next") || EqualsIgnoreCase(relative, "previous")
  {
    var sorted := SortBy(Stable(rs), NewerOrSame);
    var r := RelativeFrom(sorted, current, relative, 0);
    RelativeFromFound(sorted, current, relative);
    if r.Some? then SortByMembers(Stable(rs), NewerOrSame, r.value); r else r
  }

  /** What the loop returns is an entry of the list, and only `next` and
      `previous` find one. */
  lemma RelativeFromFound(sorted: seq<Release>, current: string, relative: string)
    ensures var r := RelativeFrom(sorted, current, relative, 0);
      r.Some? ==> r.value in sorted && (EqualsIgnoreCase(relative, "next") || EqualsIgnoreCase(relative, "previous"))
  {
    var r := RelativeFrom(sorted, current, relative, 0);
    if r.Some? {
      var k :| 0 <= k < |sorted| && CompareVersions(sorted[k].version, current) == 0 && r == Neighbour(sorted, k, relative);
    }
  }

  /** In a list sorted newest first, the entry before a position is at
      least as new and the entry after it at most as new. */
  lemma NeighbourDirection(sorted: seq<Release>, k: nat, current: string, relative: string)
    requires SortedBy(sorted, NewerOrSame) && k < |sorted|
    requires CompareVersions(sorted[k].version, current) == 0
    requires Neighbour(sorted, k, relative).Some?
    ensures var x := Neighbour(sorted, k, relative).value;
      (EqualsIgnoreCase(relative, "next") ==> CompareVersions(x.version, current) >= 0) &&
      (!EqualsIgnoreCase(relative, "next") ==> CompareVersions(x.version, current) <= 0)
  {
    var x := Neighbour(sorted, k, relative).value;
    CompareVersionsAntisymmetric(sorted[k].version, current);
    if EqualsIgnoreCase(relative, "next") && k > 0 {
      assert NewerOrSame(sorted[k - 1], sorted[k]);
      CompareVersionsTransitive(current, sorted[k].version, x.version);
      CompareVersionsAntisymmetric(current, x.version);
    } else {
      assert NewerOrSame(sorted[k], sorted[k + 1]);
      CompareVersionsTransitive(x.version, sorted[k].version, current);
    }
  }

  /** `next` is a stable release at least as new as the current version,
      `previous` one at most as new. */
  lemma RelativeVersionDirection(rs: seq<Release>, current: string, relative: string)
    ensures var r := RelativeVersion(rs, current, relative);
      r.Some? ==>
        (r.value in rs && !r.value.prerelease &&
         (EqualsIgnoreCase(relative, "next") ==> CompareVersions(r.value.version, current) >= 0) &&
         (!EqualsIgnoreCase(relative, "next") ==> CompareVersions(r.value.version, current) <= 0))
  {
    var sorted := SortBy(Stable(rs), NewerOrSame);
    var r := RelativeVersion(rs, current, relative);
    if r.Some? {
      NewerOrSameIsPreorder();
      SortBySorted(Stable(rs), NewerOrSame);
      var k :| 0 <= k < |sorted| && CompareVersions(sorted[k].version, current) == 0 && r == Neighbour(sorted, k, relative);
      NeighbourDirection(sorted, k, current, relative);
      assert r.value in sorted;
      SortByMembers(Stable(rs), NewerOrSame, r.value);
    }
  }

  /** The version lookups and the result of the last check. */
  class UpdateChecker {
    const currentVersion: string
    var latestVersion: Option<string>
    var downloadUrl: Option<string>
    var updateAvailable: bool
    var availableVersions: seq<Release>

    constructor (currentVersion: string)
      ensures this.currentVersion == currentVersion && latestVersion.None? && downloadUrl.None?
      ensures !updateAvailable && availableVersions == []
    {
      this.currentVersion := currentVersion;
      latestVersion := None;
      downloadUrl := None;
      updateAvailable := false;
      availableVersions := [];
    }

    /** `checkForUpdates` once the request is answered: the list is cleared
        and, for a successful response (`Some`), refilled in response order;
        a non-empty list sets the latest version and its download URL, and
        an update is available iff the latest version is newer than the
        running one. */
    method CheckForUpdates(fetched: Option<seq<Release>>) returns (found: bool)
      modifies this
      ensures availableVersions == fetched.GetOr([])
      ensures found == updateAvailable || fetched.None? || fetched.value == []
      ensures fetched.None? || fetched.value == [] ==>
        !found && latestVersion == old(latestVersion) && downloadUrl == old(downloadUrl) && updateAvailable == old(updateAvailable)
      ensures fetched.Some? && fetched.value != [] ==>
        var latest := LatestRelease(fetched.value);
        latestVersion == Some(latest.version) && downloadUrl == latest.downloadUrl &&
        found == updateAvailable && (updateAvailable <==> CompareVersions(latest.version, currentVersion) > 0)
    {
      availableVersions := [];
      if fetched.None? {
        return false;
      }
      availableVersions := fetched.value;
      if fetched.value == [] {
        return false;
      }
      var latest := LatestRelease(fetched.value);
      latestVersion := Some(latest.version);
      downloadUrl := latest.downloadUrl;
      updateAvailable := CompareVersions(latest.version, currentVersion) > 0;
      found := updateAvailable;
    }
  }
}
