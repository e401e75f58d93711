/** The navigation tabs of the page header and which of them is marked active for the
    current location. */
module Header {

  datatype NavLink = NavLink(name: string, path: string)

  const NavLinks: seq<NavLink> := [
    NavLink("Home", "/"),
    NavLink("MartAi", "/martai"),
    NavLink("Category", "/category"),
    NavLink("Videos", "/videos"),
    NavLink("PC Builder", "/pcbuilder"),
    NavLink("Tutor", "/tutor"),
    NavLink("Repair", "/repair"),
    NavLink("Become Seller", "/becomeseller"),
    NavLink("About Us", "/aboutus")]

  /** The root tab matches only the root itself; every other tab matches any pathname that
      starts with its path, character by character. */
  predicate IsActive(path: string, pathname: string) {
    if path == "/" then pathname == "/" else path <= pathname
  }

  /** The active flag of every tab, in table order. */
  function ActiveTabs(pathname: string): (r: seq<bool>)
    ensures |r| == |NavLinks|
    ensures forall k :: 0 <= k < |r| ==> (r[k] <==> IsActive(NavLinks[k].path, pathname))
  {
    seq(|NavLinks|, k requires 0 <= k < |NavLinks| => IsActive(NavLinks[k].path, pathname))
  }

  /** Home is active exactly on "/". */
  lemma HomeActive(pathname: string)
    ensures ActiveTabs(pathname)[0] <==> pathname == "/"
  {
  }

  /** Any other tab is active exactly when its path starts the pathname. */
  lemma OtherTabActive(pathname: string, k: nat)
    requires 0 < k < |NavLinks|
    ensures ActiveTabs(pathname)[k] <==> NavLinks[k].path <= pathname
  {
    assert NavLinks[k].path[1] != '/';
  }

  /** Prefix matching ignores path segments and letter case counts. */
  lemma PrefixQuirks()
    ensures ActiveTabs("/tutorprofile")[5]
    ensures !ActiveTabs("/Tutor")[5]
    ensures ActiveTabs("/videos/123")[3]
  {
    assert "/tutor" <= "/tutorprofile";
    assert "/Tutor"[1] != "/tutor"[1];
    assert "/videos" <= "/videos/123";
  }

  /** The non-root paths differ at their second character, so none is a prefix of another. */
  lemma PathsNotPrefixes(i: nat, j: nat)
    requires 0 < i < |NavLinks| && 0 < j < |NavLinks|
    ensures NavLinks[i].path <= NavLinks[j].path ==> i == j
  {
    var seconds := "mcvptrba";
    assert forall k :: 0 < k < |NavLinks| ==> |NavLinks[k].path| >= 2 && NavLinks[k].path[1] == seconds[k - 1];
  }

  /** Two prefixes of one string are prefixes of each other. */
  lemma PrefixesNested(a: string, b: string, s: string)
    requires a <= s && b <= s
    ensures a <= b || b <= a
  {
    if |a| <= |b| {
      assert a == s[..|a|] == b[..|a|];
    } else {
      assert b == s[..|b|] == a[..|b|];
    }
  }

  /** At most one tab is active for any pathname. */
  lemma AtMostOneActive(pathname: string, i: nat, j: nat)
    requires i < |NavLinks| && j < |NavLinks|
    requires ActiveTabs(pathname)[i] && ActiveTabs(pathname)[j]
    ensures i == j
  {
    assert forall k :: 0 < k < |NavLinks| ==> |NavLinks[k].path| >= 2;
    if i != 0 && j != 0 {
      PrefixesNested(NavLinks[i].path, NavLinks[j].path, pathname);
      PathsNotPrefixes(i, j);
      PathsNotPrefixes(j, i);
    }
  }

  /** On "/" only Home is active. */
  lemma RootOnlyHome(k: nat)
    requires k < |NavLinks|
    ensures ActiveTabs("/")[k] <==> k == 0
  {
    assert forall m :: 0 < m < |NavLinks| ==> |NavLinks[m].path| >= 2;
  }
}
