/** The search string both clients send as `q`: the free-text terms followed
    by one `org:<name>` qualifier per default organisation, joined by single
    spaces. Neither client escapes or quotes anything. */
module SearchQuery {
  import opened Text

  /** The qualifier that restricts a code search to one organisation. */
  function OrgQualifier(name: string): string
  {
    "org:" + name
  }

  /** One qualifier per organisation name, in the given order. */
  function OrgFilters(names: seq<string>): (r: seq<string>)
    ensures |r| == |names|
    ensures forall i :: 0 <= i < |names| ==> r[i] == OrgQualifier(names[i])
  {
    if |names| == 0 then [] else [OrgQualifier(names[0])] + OrgFilters(names[1..])
  }

  /** The terms followed by the filters, separated by single spaces. */
  function Compose(terms: seq<string>, filters: seq<string>): (q: string)
    ensures |terms| + |filters| == 0 ==> q == ""
    ensures |terms| + |filters| == 1 ==> q == (terms + filters)[0]
  {
    Join(terms + filters, " ")
  }

  /** A term or qualifier that the upstream query language reads as one token. */
  predicate IsToken(s: string)
  {
    ' ' !in s
  }

  /** When no term contains a space, splitting the query on spaces yields
      exactly the terms and then the filters, each group in its order. */
  lemma ComposeKeepsOrder(terms: seq<string>, filters: seq<string>)
    requires |terms| + |filters| >= 1
    requires forall k :: 0 <= k < |terms| ==> IsToken(terms[k])
    requires forall k :: 0 <= k < |filters| ==> IsToken(filters[k])
    ensures Split(Compose(terms, filters), ' ') == terms + filters
  {
    var all := terms + filters;
    forall k | 0 <= k < |all| ensures ' ' !in all[k] {
      if k < |terms| { assert all[k] == terms[k]; } else { assert all[k] == filters[k - |terms|]; }
    }
    SplitJoin(all, ' ');
  }

  /** A space-free organisation name gives a one-token qualifier. */
  lemma OrgFiltersAreTokens(names: seq<string>)
    requires forall k :: 0 <= k < |names| ==> IsToken(names[k])
    ensures forall k :: 0 <= k < |names| ==> IsToken(OrgFilters(names)[k])
  {
    forall k | 0 <= k < |names| ensures IsToken(OrgFilters(names)[k]) {
      assert OrgFilters(names)[k] == "org:" + names[k];
      assert ' ' !in "org:";
    }
  }

  /** One term and two organisations: `foo org:acme org:wombat`. */
  lemma ComposeExample()
    ensures Compose(["foo"], OrgFilters(["acme", "wombat"])) == "foo org:acme org:wombat"
  {
    var names := ["acme", "wombat"];
    var f := OrgFilters(names);
    assert f[0] == OrgQualifier(names[0]) == "org:acme";
    assert f[1] == OrgQualifier(names[1]) == "org:wombat";
    assert f == ["org:acme", "org:wombat"];
    assert ["foo"] + f == ["foo", "org:acme", "org:wombat"];
    JoinCons("foo", ["org:acme", "org:wombat"], " ");
    JoinCons("org:acme", ["org:wombat"], " ");
  }
}
