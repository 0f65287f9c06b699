/**
 The Content-Security-Policy builder: directives collect their sources in a
 map, bare tokens and `report-to` entries go into a list, and rendering
 pushes one entry per directive into that list, sorts it and joins it with
 "; ".
 */
module Csp {
  import opened Strings
  import opened Http
  import CspReportTo

  /** The keyword and scheme sources the crate names. */
  datatype Source =
    | SameOrigin
    | SRC
    | None
    | UnsafeInline
    | Data
    | Mediastream
    | HTTPS
    | Blob
    | Filesystem
    | StrictDynamic
    | UnsafeEval
    | Wildcard
  {
    /** The text `Display` writes. */
    function Display(): (t: string)
      ensures |t| > 0
    {
      match this
      case SameOrigin => "'self'"
      case SRC => "'src'"
      case None => "'none'"
      case UnsafeInline => "'unsafe-inline'"
      case Data => "data:"
      case Mediastream => "mediastream:"
      case HTTPS => "https:"
      case Blob => "blob:"
      case Filesystem => "filesystem:"
      case StrictDynamic => "'strict-dynamic'"
      case UnsafeEval => "'unsafe-eval'"
      case Wildcard => "*"
    }

    /** The text `as_ref` gives, which is what the directive methods store:
        keywords are single-quoted, schemes end in a colon. */
    function AsRef(): (t: string)
      ensures |t| > 0
      ensures
        t[0] == '\'' && t[|t| - 1] == '\'' <==>
        this in {SameOrigin, SRC, None, UnsafeInline, StrictDynamic, UnsafeEval}
      ensures t[|t| - 1] == ':' <==> this in {Data, Mediastream, HTTPS, Blob, Filesystem}
    {
      match this
      case SameOrigin => "'self'"
      case SRC => "'src'"
      case None => "'none'"
      case UnsafeInline => "'unsafe-inline'"
      case Data => "data:"
      case Mediastream => "mediastream:"
      case HTTPS => "https:"
      case Blob => "blob:"
      case Filesystem => "filesystem:"
      case StrictDynamic => "'strict-dynamic'"
      case UnsafeEval => "'unsafe-eval'"
      case Wildcard => "*"
    }
  }

  /** Both renderings of a source agree, and no two sources share a text. */
  lemma SourceTexts(s: Source, t: Source)
    ensures s.Display() == s.AsRef()
    ensures s.AsRef() == t.AsRef() ==> s == t
  {
  }

  /** The keys the directive methods use. */
  const DirectiveNames: set<string> := {
    "base-uri",
    "connect-src",
    "default-src",
    "font-src",
    "form-action",
    "frame-ancestors",
    "frame-src",
    "img-src",
    "media-src",
    "object-src",
    "plugin-types",
    "require-sri-for ",
    "report-uri",
    "sandbox",
    "script-src",
    "style-src",
    "worker-src"
  }

  const DefaultPolicy := "script-src 'self'; object-src 'self'"
  const BlockAllMixedContentToken := "block-all-mixed-content"
  const UpgradeInsecureRequestsToken := "upgrade-insecure-requests"
  const ReportToPrefix := "report-to "

  /** The two headers the policy goes under, as `HeaderName` normalises them. */
  const PolicyHeader := "content-security-policy"
  const ReportOnlyPolicyHeader := "content-security-policy-report-only"

  lemma PolicyHeaderNormalised()
    ensures Lower("Content-Security-Policy") == PolicyHeader
  {
  }

  lemma ReportOnlyPolicyHeaderNormalised()
    ensures Lower("Content-Security-Policy-Report-Only") == ReportOnlyPolicyHeader
  {
    assert "Content-Security-Policy-Report-Only" == "Content-Security-Policy" + "-Report-Only";
    assert ReportOnlyPolicyHeader == PolicyHeader + "-report-only";
    LowerConcat("Content-Security-Policy", "-Report-Only");
    PolicyHeaderNormalised();
    assert Lower("-Report-Only") == "-report-only";
  }

  function HeaderFor(reportOnly: bool): (name: string)
    ensures name == PolicyHeader <==> !reportOnly
    ensures name == ReportOnlyPolicyHeader <==> reportOnly
  {
    if reportOnly then ReportOnlyPolicyHeader else PolicyHeader
  }

  /** The entry `report_to` pushes for one descriptor: "report-to " and its
      JSON text. */
  function ReportToEntry(r: CspReportTo.ReportTo): (e: string)
    ensures CspReportTo.StartsWith(e, ReportToPrefix)
    ensures |e| > |ReportToPrefix| + 1 && e[|ReportToPrefix|] == '{' && e[|e| - 1] == '}'
  {
    CspReportTo.StartsWithConcat(ReportToPrefix, CspReportTo.ToJson(r));
    ReportToPrefix + CspReportTo.ToJson(r)
  }

  /** The entries `report_to` pushes, one per descriptor, in the given order. */
  function ReportToEntries(endpoints: seq<CspReportTo.ReportTo>): (r: seq<string>)
    ensures |r| == |endpoints|
    ensures forall i :: 0 <= i < |endpoints| ==> r[i] == ReportToEntry(endpoints[i])
  {
    MapSeq(ReportToEntry, endpoints)
  }

  /** The sources collected so far for `name`. */
  function SourcesOf(d: map<string, seq<string>>, name: string): seq<string>
  {
    if name in d then d[name] else []
  }

  /** `directives.entry(name).or_insert_with(Vec::new).push(source)`. */
  function WithSource(d: map<string, seq<string>>, name: string, source: string): (r: map<string, seq<string>>)
    ensures r.Keys == d.Keys + {name}
    ensures r[name] == SourcesOf(d, name) + [source]
    ensures forall k :: k in d && k != name ==> r[k] == d[k]
  {
    d[name := SourcesOf(d, name) + [source]]
  }

  /** Adding the sources of `ss` one call at a time. */
  function WithSources(d: map<string, seq<string>>, name: string, ss: seq<string>): map<string, seq<string>>
    decreases ss
  {
    if ss == [] then d else WithSources(WithSource(d, name, ss[0]), name, ss[1..])
  }

  /** Repeated calls for one directive merge into one entry, in call order;
      no other directive changes. */
  lemma {:induction false} WithSourcesMerges(d: map<string, seq<string>>, name: string, ss: seq<string>)
    ensures SourcesOf(WithSources(d, name, ss), name) == SourcesOf(d, name) + ss
    ensures WithSources(d, name, ss).Keys == d.Keys + (if ss == [] then {} else {name})
    ensures forall k :: k in d && k != name ==> WithSources(d, name, ss)[k] == d[k]
    decreases ss
  {
    if ss != [] {
      WithSourcesMerges(WithSource(d, name, ss[0]), name, ss[1..]);
      assert [ss[0]] + ss[1..] == ss;
    }
  }

  /** `format!("{} {}", directive, sources.join(" "))`: the name, one space,
      then the sources joined by single spaces. */
  function Render(name: string, sources: seq<string>): (r: string)
    ensures name + " " <= r
    ensures |r| == |name| + 1 + |Join(sources, " ")|
  {
    name + " " + Join(sources, " ")
  }

  /** A directive given sources `s1`, ..., `sn` renders as its name followed
      by the sources, one space before each. */
  lemma {:induction false} RenderAppend(name: string, sources: seq<string>, source: string)
    requires sources != []
    ensures Render(name, sources + [source]) == Render(name, sources) + " " + source
  {
    JoinAppend(sources, source, " ");
  }

  ghost function Pick(s: set<string>): (x: string)
    requires s != {}
    ensures x in s
  {
    var x :| x in s; x
  }

  /** The rendered directive entries of a map, order forgotten. */
  ghost function RenderedBag(d: map<string, seq<string>>): multiset<string>
    decreases |d|
  {
    if d == map[] then multiset{}
    else
      var k := Pick(d.Keys);
      assert |d - {k}| < |d| by { assert (d - {k}).Keys == d.Keys - {k}; }
      multiset{Render(k, d[k])} + RenderedBag(d - {k})
  }

  /** Any key can be taken out first. */
  lemma {:induction false} RenderedBagRemove(d: map<string, seq<string>>, k: string)
    requires k in d
    ensures RenderedBag(d) == multiset{Render(k, d[k])} + RenderedBag(d - {k})
    decreases |d|
  {
    var j := Pick(d.Keys);
    if j != k {
      var dj, dk := d - {j}, d - {k};
      assert dj.Keys == d.Keys - {j} && dk.Keys == d.Keys - {k};
      assert k in dj && dj[k] == d[k];
      assert j in dk && dk[j] == d[j];
      var rest := dj - {k};
      assert rest == dk - {j};
      var rj, rk := Render(j, d[j]), Render(k, d[k]);
      calc {
        RenderedBag(d);
        multiset{rj} + RenderedBag(dj);
        { RenderedBagRemove(dj, k); }
        multiset{rj} + (multiset{rk} + RenderedBag(rest));
        multiset{rk} + (multiset{rj} + RenderedBag(rest));
        { RenderedBagRemove(dk, j); }
        multiset{rk} + RenderedBag(dk);
      }
    }
  }

  lemma {:induction false} RenderedBagSize(d: map<string, seq<string>>)
    ensures |RenderedBag(d)| == |d|
    decreases |d|
  {
    if d != map[] {
      var k := Pick(d.Keys);
      assert (d - {k}).Keys == d.Keys - {k};
      RenderedBagSize(d - {k});
    }
  }

  /** Every rendered entry is some directive's rendering. */
  lemma {:induction false} RenderedBagMembers(d: map<string, seq<string>>, e: string)
    requires e in RenderedBag(d)
    ensures exists k :: k in d && e == Render(k, d[k])
    decreases |d|
  {
    var k := Pick(d.Keys);
    assert (d - {k}).Keys == d.Keys - {k};
    if e != Render(k, d[k]) {
      RenderedBagMembers(d - {k}, e);
    }
  }

  /** What `value()` leaves in `policy`, given the entries `before` and the
      directive map `d`. With no directive, the loop never runs, so nothing is
      pushed or sorted; otherwise the last sort leaves the old entries and one
      rendering per directive in ascending order. */
  ghost predicate Rendered(before: seq<string>, d: map<string, seq<string>>, after: seq<string>)
  {
    if d == map[] then after == before
    else Sorted(after) && multiset(after) == multiset(before) + RenderedBag(d)
  }

  /** The rendered list is determined by the entries and the map alone. */
  lemma RenderedDeterministic(before: seq<string>, d: map<string, seq<string>>, a1: seq<string>, a2: seq<string>)
    requires Rendered(before, d, a1) && Rendered(before, d, a2)
    ensures a1 == a2
  {
    if d != map[] { SortedUnique(a1, a2); }
  }

  /** `order` lists the keys `keys`, each once: an iteration order of a map. */
  ghost predicate IsEnumeration(order: seq<string>, keys: set<string>)
  {
    && (forall i, j :: 0 <= i < j < |order| ==> order[i] != order[j])
    && (forall k :: k in keys <==> k in order)
  }

  lemma EnumerationSnoc(order: seq<string>, keys: set<string>, k: string)
    requires IsEnumeration(order, keys) && k !in keys
    ensures IsEnumeration(order + [k], keys + {k})
  {
    var o := order + [k];
    forall i, j | 0 <= i < j < |o| ensures o[i] != o[j] {
      assert o[i] == order[i];
      if j == |order| { assert order[i] in keys; }
    }
  }

  /** The state of the loop of `value` after visiting the keys `visited`
      of `d`, starting from the entries `p0`. */
  ghost predicate PushedSoFar(p0: seq<string>, visited: seq<string>, d: map<string, seq<string>>, policy: seq<string>)
  {
    && (forall i :: 0 <= i < |visited| ==> visited[i] in d)
    && (visited == [] ==> policy == p0)
    && (visited != [] ==> Sorted(policy))
    && multiset(policy) == multiset(p0 + RenderAll(visited, d))
  }

  /** One turn of the loop: push the entry of `k`, sort. */
  lemma PushedStep(p0: seq<string>, visited: seq<string>, d: map<string, seq<string>>,
                   policy: seq<string>, k: string, policy': seq<string>)
    requires PushedSoFar(p0, visited, d, policy) && k in d
    requires Sorted(policy') && multiset(policy') == multiset(policy + [Render(k, d[k])])
    ensures PushedSoFar(p0, visited + [k], d, policy')
  {
    RenderAllSnoc(p0, visited, k, d);
  }

  /** After the loop of `value` has visited every key once, the entries
      are as `Rendered` says, one more per directive. */
  lemma PushedAll(p0: seq<string>, visited: seq<string>, d: map<string, seq<string>>, policy: seq<string>)
    requires IsEnumeration(visited, d.Keys) && PushedSoFar(p0, visited, d, policy)
    ensures Rendered(p0, d, policy)
    ensures |policy| == |p0| + |d|
  {
    if visited != [] {
      assert visited[0] in d;
    } else {
      assert d.Keys == {};
    }
    RenderAllBag(visited, d);
    RenderedBagSize(d);
    assert |policy| == |multiset(policy)|;
  }

  /** The directive entries in the order `order` visits the map. */
  function RenderAll(order: seq<string>, d: map<string, seq<string>>): (r: seq<string>)
    requires forall i :: 0 <= i < |order| ==> order[i] in d
    ensures |r| == |order|
    ensures forall i :: 0 <= i < |order| ==> r[i] == Render(order[i], d[order[i]])
  {
    seq(|order|, i requires 0 <= i < |order| => Render(order[i], d[order[i]]))
  }

  /** Dropping the last key of an enumeration enumerates the other keys. */
  lemma EnumerationDropLast(order: seq<string>, keys: set<string>)
    requires IsEnumeration(order, keys) && order != []
    ensures IsEnumeration(order[..|order| - 1], keys - {order[|order| - 1]})
  {
    var o', k := order[..|order| - 1], order[|order| - 1];
    assert order == o' + [k];
    forall x ensures x in keys - {k} <==> x in o' {
      if x in o' {
        var i :| 0 <= i < |o'| && o'[i] == x;
        assert order[i] == x && i < |order| - 1;
      }
    }
  }

  /** Visiting one more key appends its entry. */
  lemma RenderAllSnoc(before: seq<string>, order: seq<string>, k: string, d: map<string, seq<string>>)
    requires forall i :: 0 <= i < |order| ==> order[i] in d
    requires k in d
    ensures before + RenderAll(order + [k], d) == before + RenderAll(order, d) + [Render(k, d[k])]
  {
    assert RenderAll(order + [k], d) == RenderAll(order, d) + [Render(k, d[k])];
  }

  /** The last key visited contributes the last entry; the others do not
      look at it. */
  lemma RenderAllDropLast(order: seq<string>, d: map<string, seq<string>>)
    requires IsEnumeration(order, d.Keys) && order != []
    ensures var o', k := order[..|order| - 1], order[|order| - 1];
            (forall i :: 0 <= i < |o'| ==> o'[i] in d - {k}) &&
            RenderAll(order, d) == RenderAll(o', d - {k}) + [Render(k, d[k])]
  {
    var o', k := order[..|order| - 1], order[|order| - 1];
    assert forall i :: 0 <= i < |o'| ==> o'[i] in d - {k} by {
      forall i | 0 <= i < |o'| ensures o'[i] in d - {k} {
        assert order[i] == o'[i] && i < |order| - 1;
      }
    }
    var r, r' := RenderAll(order, d), RenderAll(o', d - {k});
    assert |r| == |r'| + 1;
    forall i | 0 <= i < |r'| ensures r[i] == r'[i] {
      assert order[i] == o'[i];
    }
    assert r == r' + [Render(k, d[k])];
  }

  lemma {:induction false} RenderAllBag(order: seq<string>, d: map<string, seq<string>>)
    requires IsEnumeration(order, d.Keys)
    ensures multiset(RenderAll(order, d)) == RenderedBag(d)
    decreases |order|
  {
    if order == [] {
      assert d.Keys == {};
      assert d == map[];
    } else {
      var o', k := order[..|order| - 1], order[|order| - 1];
      var d' := d - {k};
      assert d'.Keys == d.Keys - {k};
      EnumerationDropLast(order, d.Keys);
      RenderAllBag(o', d');
      RenderAllDropLast(order, d);
      RenderedBagRemove(d, k);
    }
  }

  /** Whatever order the map is iterated in, `value()` leaves the same list:
      the sorted old entries plus the directive entries in that order. */
  lemma RenderedInAnyOrder(before: seq<string>, d: map<string, seq<string>>,
                           order: seq<string>, after: seq<string>)
    requires d != map[] && IsEnumeration(order, d.Keys)
    ensures Rendered(before, d, after) <==> after == Sort(before + RenderAll(order, d))
  {
    RenderAllBag(order, d);
    var s := Sort(before + RenderAll(order, d));
    SortSorted(before + RenderAll(order, d));
    if Rendered(before, d, after) {
      SortedUnique(after, s);
    }
  }

  /** Rendering a second time pushes every directive entry again: the list
      grows by the number of directives and the header value changes. */
  lemma RenderTwiceDiffers(p0: seq<string>, d: map<string, seq<string>>, p1: seq<string>, p2: seq<string>)
    requires d != map[]
    requires Rendered(p0, d, p1) && Rendered(p1, d, p2)
    ensures |p1| == |p0| + |d| && |p2| == |p1| + |d|
    ensures multiset(p2) == multiset(p0) + RenderedBag(d) + RenderedBag(d)
    ensures Join(p2, "; ") != Join(p1, "; ")
  {
    RenderedBagSize(d);
    assert |p1| == |multiset(p1)|;
    assert |p2| == |multiset(p2)|;
    assert multiset(p1) <= multiset(p2);
    TotalLenSubBag(p1, p2);
    JoinLength(p1, "; ");
    JoinLength(p2, "; ");
  }

  /** Rendering keeps every entry a valid header value when each stored
      entry, directive name and source is one. */
  lemma RenderedKeepsSafe(before: seq<string>, d: map<string, seq<string>>, after: seq<string>)
    requires forall e :: e in before ==> ValidHeaderValue(e)
    requires forall k :: k in d ==> ValidHeaderValue(k) && forall s :: s in d[k] ==> ValidHeaderValue(s)
    requires Rendered(before, d, after)
    ensures forall e :: e in after ==> ValidHeaderValue(e)
  {
    forall e | e in after ensures ValidHeaderValue(e) {
      if e !in before {
        assert e in multiset(after);
        assert e in RenderedBag(d);
        RenderedBagMembers(d, e);
        var k :| k in d && e == Render(k, d[k]);
        JoinChars(d[k], " ", ValidHeaderChar);
        assert ValidHeaderValue(Join(d[k], " "));
      }
    }
  }

  /** The rendered header value is a valid `HeaderValue` when each stored
      entry, directive name and source is. */
  lemma RenderedIsHeaderValue(before: seq<string>, d: map<string, seq<string>>, after: seq<string>)
    requires forall e :: e in before ==> ValidHeaderValue(e)
    requires forall k :: k in d ==> ValidHeaderValue(k) && forall s :: s in d[k] ==> ValidHeaderValue(s)
    requires Rendered(before, d, after)
    ensures ValidHeaderValue(Join(after, "; "))
  {
    RenderedKeepsSafe(before, d, after);
    JoinChars(after, "; ", ValidHeaderChar);
  }

  /** In a map whose keys are directive names with at least one source each,
      every rendering is a directive name, a space and that directive's first
      source, then the rest. */
  lemma RenderedEntryShape(d: map<string, seq<string>>, e: string)
    requires forall k :: k in d ==> k in DirectiveNames && d[k] != []
    requires e in RenderedBag(d)
    ensures exists k :: k in d && k in DirectiveNames && k + " " + d[k][0] <= e
  {
    RenderedBagMembers(d, e);
    var k :| k in d && e == Render(k, d[k]);
    assert e == (k + " ") + Join(d[k], " ");
    assert d[k][0] <= Join(d[k], " ");
    assert k + " " + d[k][0] <= e;
  }

  class ContentSecurityPolicy {
    var policy: seq<string>
    var reportOnlyFlag: bool
    var directives: map<string, seq<string>>

    /** Only the directive methods add keys, and each adds a source with the key. */
    ghost predicate Valid()
      reads this
    {
      forall k :: k in directives ==> k in DirectiveNames && directives[k] != []
    }

    /** Every stored string is a valid header value, as `apply` needs. */
    ghost predicate HeaderSafe()
      reads this
    {
      && (forall e :: e in policy ==> ValidHeaderValue(e))
      && (forall k :: k in directives ==> ValidHeaderValue(k) && forall s :: s in directives[k] ==> ValidHeaderValue(s))
    }

    /** `ContentSecurityPolicy::new()`: nothing set. */
    constructor ()
      ensures Valid()
      ensures policy == [] && directives == map[] && !reportOnlyFlag
    {
      policy := [];
      reportOnlyFlag := false;
      directives := map[];
    }

    /** `Default::default()`: the one opaque entry "script-src 'self'; object-src 'self'",
        not split into directives. */
    constructor Default()
      ensures Valid()
      ensures policy == [DefaultPolicy] && directives == map[] && !reportOnlyFlag
    {
      policy := [DefaultPolicy];
      reportOnlyFlag := false;
      directives := map[];
    }

    /** The directive `name` has gained `source` at the end of its list; the
        other directives, the entries and the flag are as they were. */
    twostate predicate SourceAdded(name: string, source: string)
      reads this
    {
      && directives == WithSource(old(directives), name, source)
      && policy == old(policy)
      && reportOnlyFlag == old(reportOnlyFlag)
    }

    /** The entries have gained `token` at the end; nothing else changed. */
    twostate predicate TokenPushed(token: string)
      reads this
    {
      && policy == old(policy) + [token]
      && directives == old(directives)
      && reportOnlyFlag == old(reportOnlyFlag)
    }

    method InsertDirective(directive: string, source: string)
      requires Valid() && directive in DirectiveNames
      modifies this
      ensures Valid() && SourceAdded(directive, source)
    {
      directives := WithSource(directives, directive, source);
    }

    /** Adds a source to `base-uri`. */
    method BaseUri(source: string)
      requires Valid()
      modifies this
      ensures Valid() && SourceAdded("base-uri", source)
    {
      InsertDirective("base-uri", source);
    }

    /** Adds a source to `connect-src`. */
    method ConnectSrc(source: string)
      requires Valid()
      modifies this
      ensures Valid() && SourceAdded("connect-src", source)
    {
      InsertDirective("connect-src", source);
    }

    /** Adds a source to `default-src`. */
    method DefaultSrc(source: string)
      requires Valid()
      modifies this
      ensures Valid() && SourceAdded("default-src", source)
    {
      InsertDirective("default-src", source);
    }

    /** Adds a source to `font-src`. */
    method FontSrc(source: string)
      requires Valid()
      modifies this
      ensures Valid() && SourceAdded("font-src", source)
    {
      InsertDirective("font-src", source);
    }

    /** Adds a source to `form-action`. */
    method FormAction(source: string)
      requires Valid()
      modifies this
      ensures Valid() && SourceAdded("form-action", source)
    {
      InsertDirective("form-action", source);
    }

    /** Adds a source to `frame-ancestors`. */
    method FrameAncestors(source: string)
      requires Valid()
      modifies this
      ensures Valid() && SourceAdded("frame-ancestors", source)
    {
      InsertDirective("frame-ancestors", source);
    }

    /** Adds a source to `frame-src`. */
    method FrameSrc(source: string)
      requires Valid()
      modifies this
      ensures Valid() && SourceAdded("frame-src", source)
    {
      InsertDirective("frame-src", source);
    }

    /** Adds a source to `img-src`. */
    method ImgSrc(source: string)
      requires Valid()
      modifies this
      ensures Valid() && SourceAdded("img-src", source)
    {
      InsertDirective("img-src", source);
    }

    /** Adds a source to `media-src`. */
    method MediaSrc(source: string)
      requires Valid()
      modifies this
      ensures Valid() && SourceAdded("media-src", source)
    {
      InsertDirective("media-src", source);
    }

    /** Adds a source to `object-src`. */
    method ObjectSrc(source: string)
      requires Valid()
      modifies this
      ensures Valid() && SourceAdded("object-src", source)
    {
      InsertDirective("object-src", source);
    }

    /** Adds a source to `plugin-types`. */
    method PluginTypes(source: string)
      requires Valid()
      modifies this
      ensures Valid() && SourceAdded("plugin-types", source)
    {
      InsertDirective("plugin-types", source);
    }

    /** Adds a source to `require-sri-for`, under the key `"require-sri-for "`
        with its trailing space, so that it renders with two spaces. */
    method RequireSriFor(source: string)
      requires Valid()
      modifies this
      ensures Valid() && SourceAdded("require-sri-for ", source)
    {
      InsertDirective("require-sri-for ", source);
    }

    /** Adds a URI to `report-uri`, which is kept in the directive map like the
        others, not in `policy`. */
    method ReportUri(source: string)
      requires Valid()
      modifies this
      ensures Valid() && SourceAdded("report-uri", source)
    {
      InsertDirective("report-uri", source);
    }

    /** Adds a source to `sandbox`. */
    method Sandbox(source: string)
      requires Valid()
      modifies this
      ensures Valid() && SourceAdded("sandbox", source)
    {
      InsertDirective("sandbox", source);
    }

    /** Adds a source to `script-src`. */
    method ScriptSrc(source: string)
      requires Valid()
      modifies this
      ensures Valid() && SourceAdded("script-src", source)
    {
      InsertDirective("script-src", source);
    }

    /** Adds a source to `style-src`. */
    method StyleSrc(source: string)
      requires Valid()
      modifies this
      ensures Valid() && SourceAdded("style-src", source)
    {
      InsertDirective("style-src", source);
    }

    /** Adds a source to `worker-src`. */
    method WorkerSrc(source: string)
      requires Valid()
      modifies this
      ensures Valid() && SourceAdded("worker-src", source)
    {
      InsertDirective("worker-src", source);
    }

    /** Pushes the bare token `block-all-mixed-content`. */
    method BlockAllMixedContent()
      requires Valid()
      modifies this
      ensures Valid() && TokenPushed(BlockAllMixedContentToken)
    {
      policy := policy + [BlockAllMixedContentToken];
    }

    /** Pushes the bare token `upgrade-insecure-requests`. */
    method UpgradeInsecureRequests()
      requires Valid()
      modifies this
      ensures Valid() && TokenPushed(UpgradeInsecureRequestsToken)
    {
      policy := policy + [UpgradeInsecureRequestsToken];
    }

    /** Pushes one entry "report-to <json>" per descriptor, in order. */
    method ReportTo(endpoints: seq<CspReportTo.ReportTo>)
      requires Valid()
      modifies this
      ensures Valid()
      ensures policy == old(policy) + ReportToEntries(endpoints)
      ensures directives == old(directives) && reportOnlyFlag == old(reportOnlyFlag)
    {
      for i := 0 to |endpoints|
        invariant directives == old(directives) && reportOnlyFlag == old(reportOnlyFlag)
        invariant policy == old(policy) + ReportToEntries(endpoints[..i])
      {
        var json := CspReportTo.ToJson(endpoints[i]);
        policy := policy + [ReportToPrefix + json];
        MapSeqSnoc(ReportToEntry, endpoints, i);
      }
      assert endpoints[..|endpoints|] == endpoints;
    }

    /** Switches to the `Content-Security-Policy-Report-Only` header. */
    method ReportOnly()
      requires Valid()
      modifies this
      ensures Valid()
      ensures reportOnlyFlag
      ensures policy == old(policy) && directives == old(directives)
    {
      reportOnlyFlag := true;
    }

    /** Renders the value. For each directive, in the map's iteration order
        (any order: the key is chosen arbitrarily), pushes its rendering and
        re-sorts the entries; then joins them with "; ". The pushed entries
        stay, so a second call pushes them again. */
    method Value() returns (v: string)
      modifies this
      ensures directives == old(directives) && reportOnlyFlag == old(reportOnlyFlag)
      ensures Rendered(old(policy), directives, policy)
      ensures |policy| == |old(policy)| + |directives|
      ensures v == Join(policy, "; ")
      ensures old(Valid()) ==> Valid()
      ensures old(HeaderSafe()) ==> HeaderSafe()
    {
      // The entries live in a local list during the loop and are stored
      // back once; nothing reads them in between.
      var d := directives;
      var entries := policy;
      ghost var visited: seq<string> := [];
      var remaining := d.Keys;
      while remaining != {}
        invariant remaining <= d.Keys
        invariant IsEnumeration(visited, d.Keys - remaining)
        invariant PushedSoFar(policy, visited, d, entries)
        modifies {}
        decreases remaining
      {
        var directive :| directive in remaining;
        ghost var prev := entries;
        entries := entries + [Render(directive, d[directive])];
        entries := SortStrings(entries);
        EnumerationSnoc(visited, d.Keys - remaining, directive);
        PushedStep(policy, visited, d, prev, directive, entries);
        visited := visited + [directive];
        remaining := remaining - {directive};
      }
      PushedAll(policy, visited, d, entries);
      if HeaderSafe() { RenderedKeepsSafe(policy, d, entries); }
      policy := entries;
      v := Join(policy, "; ");
    }

    /** Renders the value and writes it under `content-security-policy`, or
        under `content-security-policy-report-only` once `ReportOnly` was
        called, overwriting any earlier value; no other header changes. */
    method Apply(headers: HeaderMap)
      requires HeaderSafe()
      modifies this, headers
      ensures directives == old(directives) && reportOnlyFlag == old(reportOnlyFlag)
      ensures Rendered(old(policy), directives, policy)
      ensures headers.entries.Keys == old(headers.entries).Keys + {HeaderFor(reportOnlyFlag)}
      ensures headers.entries[HeaderFor(reportOnlyFlag)] == Join(policy, "; ")
      ensures forall k :: k in old(headers.entries) && k != HeaderFor(reportOnlyFlag) ==>
                headers.entries[k] == old(headers.entries)[k]
      ensures HeaderSafe()
      ensures old(Valid()) ==> Valid()
    {
      ghost var before := policy;
      var val := Value();
      RenderedIsHeaderValue(before, directives, policy);
      if !reportOnlyFlag {
        PolicyHeaderNormalised();
        headers.Insert("Content-Security-Policy", val);
      } else {
        ReportOnlyPolicyHeaderNormalised();
        headers.Insert("Content-Security-Policy-Report-Only", val);
      }
    }
  }

  /** The free function `csp::new()`: the same empty builder. */
  method New() returns (c: ContentSecurityPolicy)
    ensures fresh(c) && c.Valid()
    ensures c.policy == [] && c.directives == map[] && !c.reportOnlyFlag
  {
    c := new ContentSecurityPolicy();
  }
}
