/** The reading of a `Link` response header (RFC 8288, section 3) that the
    Rust search loop performs: split the value on `,`, split each entry on
    `;`, take the target from the trimmed first segment and keep it only
    when a later segment is exactly ` rel="next"`. */
module LinkHeader {
  import opened Wrappers
  import opened Text

  /** The only parameter the parser recognises, compared verbatim (with its
      leading space, without trimming or case folding). */
  const NextParam: string := " rel=\"next\""

  /** What the closure passed to `filter_map` does with one entry. */
  datatype EntryResult =
    | Skipped               // `None`: no `>` in the target, or not a `next` entry
    | NextUrl(url: string)  // `Some(url)`
    | SlicePanic            // `&maybe_url[1..end]` is not a valid string slice

  /** What collecting the whole header gives. */
  datatype LinkScan =
    | Panicked              // some entry's slice panicked
    | Found(urls: seq<string>)

  /** Byte index 1 of a non-empty UTF-8 string is a character boundary exactly
      when its first character encodes as a single byte. */
  predicate IsAscii(c: char)
  {
    c as int < 0x80
  }

  /** What the first segment of an entry gives: no `>` at all, a slice that
      panics, or the text between index 1 and the last `>`. */
  datatype TargetSlice = NoTarget | BadSlice | Target(url: string)

  /** `maybe_url.rfind(">")` and `&maybe_url[1..end]` on the trimmed first segment. */
  function TargetOf(maybeUrl: string): (r: TargetSlice)
    ensures r == NoTarget <==> '>' !in maybeUrl
    ensures r == BadSlice <==> '>' in maybeUrl && ('>' !in maybeUrl[1..] || !IsAscii(maybeUrl[0]))
    ensures r.Target? ==>
      exists end :: 1 <= end < |maybeUrl| && maybeUrl[end] == '>' && '>' !in maybeUrl[end + 1..] && r.url == maybeUrl[1..end]
  {
    match LastIndexOf(maybeUrl, '>')
    case None => NoTarget
    case Some(end) =>
      if end < 1 || !IsAscii(maybeUrl[0]) then BadSlice
      else Target(maybeUrl[1..end])
  }

  /** The `filter_map` closure over one `,`-separated entry. The slice is taken
      before the parameters are looked at, so a bad slice panics whatever the
      relation is. */
  function ParseEntry(entry: string): EntryResult
  {
    var bits := Split(entry, ';');
    match TargetOf(Trim(bits[0]))
    case NoTarget => Skipped
    case BadSlice => SlicePanic
    case Target(url) => if NextParam in bits[1..] then NextUrl(url) else Skipped
  }

  /** The three outcomes of `ParseEntry`, restated from its definition: an
      entry contributes a URL only when one of its parameters is exactly
      ` rel="next"`, and then the URL is the slice of its first segment; it
      panics exactly when that slice is invalid, whatever its parameters. */
  lemma EntryContributesOnlyWithNext(entry: string)
    ensures ParseEntry(entry).NextUrl? <==>
      TargetOf(Trim(Split(entry, ';')[0])).Target? && NextParam in Split(entry, ';')[1..]
    ensures ParseEntry(entry).NextUrl? ==> TargetOf(Trim(Split(entry, ';')[0])) == Target(ParseEntry(entry).url)
    ensures ParseEntry(entry).SlicePanic? <==> TargetOf(Trim(Split(entry, ';')[0])).BadSlice?
  {
  }

  /** A first segment without `>` contributes nothing. */
  lemma EntryWithoutTarget(entry: string)
    requires '>' !in Trim(Split(entry, ';')[0])
    ensures ParseEntry(entry) == Skipped
  {
  }

  /** The closure applied to each entry, in order. */
  function ParseEntries(entries: seq<string>): seq<EntryResult>
  {
    seq(|entries|, k requires 0 <= k < |entries| => ParseEntry(entries[k]))
  }

  /** `collect()` of the `filter_map`: every entry is evaluated, in order, and
      the first panic ends the whole collection. */
  function Collect(results: seq<EntryResult>): (r: LinkScan)
    ensures r.Found? ==> |r.urls| <= |results|
  {
    if |results| == 0 then Found([])
    else
      var rest := Collect(results[1..]);
      match results[0]
      case SlicePanic => Panicked
      case Skipped => rest
      case NextUrl(u) => if rest.Panicked? then Panicked else Found([u] + rest.urls)
  }

  /** The `next` candidates of a header value, in header order: at most one
      URL per `,`-separated entry. */
  function NextLinks(link: string): (r: LinkScan)
    ensures r.Found? ==> |r.urls| <= |Split(link, ',')|
  {
    Collect(ParseEntries(Split(link, ',')))
  }

  /** A header panics exactly when one of its `,`-separated entries does. */
  lemma {:induction false} NextLinksPanicIff(link: string, entries: seq<string>)
    requires entries == Split(link, ',')
    ensures NextLinks(link).Panicked? <==> exists i :: 0 <= i < |entries| && ParseEntry(entries[i]).SlicePanic?
  {
    EntriesPanicIff(entries);
  }

  lemma {:induction false} EntriesPanicIff(entries: seq<string>)
    ensures Collect(ParseEntries(entries)).Panicked? <==>
      exists i :: 0 <= i < |entries| && ParseEntry(entries[i]).SlicePanic?
  {
    var results := ParseEntries(entries);
    CollectPanicsIff(results);
    assert forall i :: 0 <= i < |entries| ==> results[i] == ParseEntry(entries[i]);
  }

  /** The whole header panics exactly when one of its entries does, even an
      entry after a qualifying one. */
  lemma {:induction false} CollectPanicsIff(results: seq<EntryResult>)
    ensures Collect(results).Panicked? <==> exists i :: 0 <= i < |results| && results[i].SlicePanic?
  {
    if |results| > 0 {
      CollectPanicsIff(results[1..]);
      assert forall i :: 1 <= i < |results| ==> results[i] == results[1..][i - 1];
    }
  }

  /** The URL that the loop follows is the one of the first entry that qualifies:
      every earlier entry is skipped and no entry panics. */
  lemma {:induction false} FirstQualifyingEntryWins(results: seq<EntryResult>, i: nat)
    requires i < |results|
    requires forall j :: 0 <= j < |results| ==> !results[j].SlicePanic?
    requires forall j :: 0 <= j < i ==> results[j].Skipped?
    requires results[i].NextUrl?
    ensures Collect(results).Found?
    ensures |Collect(results).urls| >= 1 && Collect(results).urls[0] == results[i].url
    decreases i
  {
    NoPanicFound(results[i + 1..]);
    if i > 0 {
      assert forall j :: 0 <= j < |results| - 1 ==> results[1..][j] == results[j + 1];
      FirstQualifyingEntryWins(results[1..], i - 1);
    } else {
      assert results[1..] == results[i + 1..];
    }
  }

  lemma {:induction false} NoPanicFound(results: seq<EntryResult>)
    requires forall j :: 0 <= j < |results| ==> !results[j].SlicePanic?
    ensures Collect(results).Found?
  {
    if |results| > 0 {
      assert forall j :: 0 <= j < |results| - 1 ==> results[1..][j] == results[j + 1];
      NoPanicFound(results[1..]);
    }
  }

  /** Without a qualifying entry (and without a panic) there is no next page. */
  lemma {:induction false} NoQualifyingEntry(results: seq<EntryResult>)
    requires forall j :: 0 <= j < |results| ==> results[j].Skipped?
    ensures Collect(results) == Found([])
  {
    if |results| > 0 {
      assert forall j :: 0 <= j < |results| - 1 ==> results[1..][j] == results[j + 1];
      NoQualifyingEntry(results[1..]);
    }
  }

  // ---- Well-formed headers: the other direction ----

  /** One link as a server writes it: a target and its `;`-separated
      parameters, each parameter with its own leading space. */
  datatype Link = Link(target: string, params: seq<string>)

  /** `<target>;param;param...`. */
  function FormatLink(l: Link): string
  {
    Join([Bracketed(l.target)] + l.params, ";")
  }

  /** Entries separated by `, `, the form GitHub sends. */
  function FormatHeader(links: seq<Link>): string
  {
    Join(FormattedEntries(links), ",")
  }

  function FormattedEntries(links: seq<Link>): seq<string>
  {
    seq(|links|, k requires 0 <= k < |links| => (if k == 0 then "" else " ") + FormatLink(links[k]))
  }

  /** A link the parser can read back: no separator inside any part and no
      `>` inside the target. */
  predicate WellFormed(l: Link)
  {
    && ';' !in l.target && ',' !in l.target && '>' !in l.target
    && forall k :: 0 <= k < |l.params| ==> ';' !in l.params[k] && ',' !in l.params[k]
  }

  /** The targets of the links that carry the `next` relation, in order. */
  function NextTargets(links: seq<Link>): (r: seq<string>)
    ensures |r| <= |links|
  {
    if |links| == 0 then []
    else (if NextParam in links[0].params then [links[0].target] else []) + NextTargets(links[1..])
  }

  /** Parsing a formatted link gives back its target exactly when it carries
      ` rel="next"`; any other relation (`rel="last"`, `rel="prev"`, ...) is
      skipped. */
  lemma LinkRoundTrip(l: Link, pad: string)
    requires WellFormed(l)
    requires pad == "" || pad == " "
    ensures ParseEntry(pad + FormatLink(l)) == if NextParam in l.params then NextUrl(l.target) else Skipped
  {
    var head := Bracketed(l.target);
    SplitFormatted(l, pad);
    BracketedEnds(l.target);
    TrimPadded(pad, head);
    TargetOfBracketed(l.target);
  }

  function Bracketed(t: string): string
  {
    "<" + t + ">"
  }

  lemma BracketedEnds(t: string)
    ensures |Bracketed(t)| > 0 && !IsWhitespace(Bracketed(t)[0]) && !IsWhitespace(Bracketed(t)[|Bracketed(t)| - 1])
  {
  }

  /** The first `;`-segment of a formatted link is the bracketed target. */
  lemma SplitFormatted(l: Link, pad: string)
    requires WellFormed(l)
    requires pad == "" || pad == " "
    ensures Split(pad + FormatLink(l), ';') == [pad + Bracketed(l.target)] + l.params
  {
    var parts := [pad + Bracketed(l.target)] + l.params;
    forall k | 0 <= k < |parts| ensures ';' !in parts[k] {
      if k == 0 {
        assert parts[0] == pad + "<" + l.target + ">";
      } else {
        assert parts[k] == l.params[k - 1];
      }
    }
    JoinPrefix(pad, Bracketed(l.target), l.params);
    SplitJoin(parts, ';');
  }

  /** The slice of a bracketed target is the target itself. */
  lemma TargetOfBracketed(t: string)
    requires '>' !in t
    ensures TargetOf(Bracketed(t)) == Target(t)
  {
    var head := Bracketed(t);
    var end := |t| + 1;
    assert head[end] == '>' && head[end + 1..] == [];
    assert head[..end] == "<" + t;
    assert head == head[..end] + [head[end]];
    assert LastIndexOf(head, '>') == Some(end);
    assert head[1..end] == t;
  }

  lemma JoinPrefix(pad: string, head: string, params: seq<string>)
    ensures pad + Join([head] + params, ";") == Join([pad + head] + params, ";")
  {
    if |params| > 0 {
      JoinCons(head, params, ";");
      JoinCons(pad + head, params, ";");
    } else {
      assert [head] + params == [head];
      assert [pad + head] + params == [pad + head];
    }
  }

  /** Parsing a header of well-formed links yields the `next` targets in header
      order, so the loop follows the first of them. */
  lemma {:induction false} HeaderRoundTrip(links: seq<Link>)
    requires forall k :: 0 <= k < |links| ==> WellFormed(links[k])
    ensures NextLinks(FormatHeader(links)) == Found(NextTargets(links))
  {
    if |links| == 0 {
      assert FormatHeader(links) == "";
      assert TargetOf(Trim("")) == NoTarget;
      assert ParseEntries([""]) == [Skipped];
      return;
    }
    var entries := FormattedEntries(links);
    forall k | 0 <= k < |entries| ensures ',' !in entries[k] {
      NoCommaInLink(links[k]);
    }
    SplitJoin(entries, ',');
    ParsedFormatted(links);
    CollectExpected(links);
  }

  lemma NoCommaInLink(l: Link)
    requires WellFormed(l)
    ensures ',' !in " " + FormatLink(l) && ',' !in FormatLink(l)
  {
    var parts := ["<" + l.target + ">"] + l.params;
    forall k | 0 <= k < |parts| ensures ',' !in parts[k] {
      if k == 0 {
        assert parts[0] == "<" + l.target + ">";
      } else {
        assert parts[k] == l.params[k - 1];
      }
    }
    JoinWithout(parts, ";", ',');
  }

  lemma {:induction false} JoinWithout(xs: seq<string>, sep: string, c: char)
    requires c !in sep
    requires forall k :: 0 <= k < |xs| ==> c !in xs[k]
    ensures c !in Join(xs, sep)
    decreases |xs|
  {
    if |xs| > 1 {
      JoinWithout(xs[1..], sep, c);
    }
  }

  /** What each well-formed link parses to. */
  function Expected(l: Link): EntryResult
  {
    if NextParam in l.params then NextUrl(l.target) else Skipped
  }

  function ExpectedResults(links: seq<Link>): seq<EntryResult>
  {
    seq(|links|, k requires 0 <= k < |links| => Expected(links[k]))
  }

  lemma ParsedFormatted(links: seq<Link>)
    requires forall k :: 0 <= k < |links| ==> WellFormed(links[k])
    ensures ParseEntries(FormattedEntries(links)) == ExpectedResults(links)
  {
    forall k | 0 <= k < |links|
      ensures ParseEntries(FormattedEntries(links))[k] == ExpectedResults(links)[k]
    {
      LinkRoundTrip(links[k], if k == 0 then "" else " ");
    }
  }

  lemma {:induction false} CollectExpected(links: seq<Link>)
    ensures Collect(ExpectedResults(links)) == Found(NextTargets(links))
  {
    if |links| > 0 {
      CollectExpected(links[1..]);
      assert ExpectedResults(links)[1..] == ExpectedResults(links[1..]);
    }
  }

  /** The header GitHub sends on a first page, `<next>; rel="next", <last>; rel="last"`,
      leads to the next page and never to the last one. */
  lemma GitHubFirstPage(next: string, last: string)
    requires WellFormed(Link(next, [])) && WellFormed(Link(last, []))
    ensures NextLinks(Bracketed(next) + ";" + NextParam + ", " + Bracketed(last) + ";" + " rel=\"last\"") == Found([next])
  {
    var a := Link(next, [NextParam]);
    var b := Link(last, [" rel=\"last\""]);
    FormatTwoLinks(a, b);
    assert NextParam !in b.params;
    HeaderRoundTrip([a, b]);
    assert NextTargets([a, b]) == [next] + NextTargets([b]);
  }

  lemma FormatTwoLinks(a: Link, b: Link)
    requires |a.params| == 1 && |b.params| == 1
    ensures FormatHeader([a, b]) == Bracketed(a.target) + ";" + a.params[0] + ", " + Bracketed(b.target) + ";" + b.params[0]
  {
    JoinCons(Bracketed(a.target), a.params, ";");
    JoinCons(Bracketed(b.target), b.params, ";");
    var entries := FormattedEntries([a, b]);
    assert entries[0] == "" + FormatLink(a) == FormatLink(a);
    assert entries == [FormatLink(a)] + [" " + FormatLink(b)];
    JoinCons(FormatLink(a), [" " + FormatLink(b)], ",");
  }

  /** ` rel="next"` must carry its leading space: `<u>;rel="next"` is skipped. */
  lemma UnspacedNextIgnored(target: string, param: string)
    requires WellFormed(Link(target, []))
    requires param == "rel=\"next\""
    ensures ParseEntry(FormatLink(Link(target, [param]))) == Skipped
  {
    var l := Link(target, [param]);
    assert ';' !in param && ',' !in param;
    assert WellFormed(l);
    assert NextParam !in l.params by { assert |param| != |NextParam|; }
    LinkRoundTrip(l, "");
    assert "" + FormatLink(l) == FormatLink(l);
  }

  /** A first segment whose only `>` is its first character makes the slice
      `[1..0]`, which panics, whatever relation follows. */
  lemma LoneBracketPanics(params: seq<string>)
    requires forall k :: 0 <= k < |params| ==> ';' !in params[k]
    ensures ParseEntry(Join([">"] + params, ";")) == SlicePanic
  {
    var parts := [">"] + params;
    forall k | 0 <= k < |parts| ensures ';' !in parts[k] {
      if k > 0 { assert parts[k] == params[k - 1]; }
    }
    SplitJoin(parts, ';');
    LoneBracketSlice(">");
  }

  lemma LoneBracketSlice(first: string)
    requires first == ">"
    ensures TargetOf(Trim(first)) == BadSlice
  {
    TrimPadded("", first);
    assert "" + first == first;
    assert LastIndexOf(first, '>') == Some(0);
  }
}
