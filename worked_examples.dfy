/**
 The crate's own examples, worked through the model: the integration test
 and the module documentation example of the policy builder, and the
 documentation examples of the header functions. Each method states the
 exact header value the example expects.
 */
module Examples {
  import opened Wrappers
  import opened Strings
  import opened Http
  import opened Csp
  import Armor

  /** The directives of the integration test after its builder calls. */
  const TestDirectives: map<string, seq<string>> := map[
    "default-src" := ["'self'", "areweasyncyet.rs"],
    "script-src" := ["'self'", "'unsafe-inline'"],
    "object-src" := ["'none'"],
    "base-uri" := ["'none'"]]

  /** The entries of the integration test after `value`, in sorted order. */
  const TestEntries: seq<string> := [
    "base-uri 'none'",
    "default-src 'self' areweasyncyet.rs",
    "object-src 'none'",
    "script-src 'self' 'unsafe-inline'",
    "upgrade-insecure-requests"]

  /** The value the integration test expects, written in pieces at its "; "
      separators. */
  const TestValue := "base-uri 'none'" + "; " + ("default-src 'self' areweasyncyet.rs" + "; " + ("object-src 'none'"
                     + "; " + ("script-src 'self' 'unsafe-inline'" + "; " + "upgrade-insecure-requests")))

  lemma TestEntriesSorted()
    ensures Sorted(TestEntries)
  {
    assert LessEq(TestEntries[0], TestEntries[1]);
    assert LessEq(TestEntries[1], TestEntries[2]);
    assert LessEq(TestEntries[2], TestEntries[3]);
    assert LessEq(TestEntries[3], TestEntries[4]);
    SortedFromNeighbours(TestEntries);
  }

  const TestOrder: seq<string> := ["base-uri", "default-src", "object-src", "script-src"]

  lemma TestOrderEnumerates()
    ensures IsEnumeration(TestOrder, TestDirectives.Keys)
  {
    assert TestDirectives.Keys == {"default-src", "script-src", "object-src", "base-uri"};
  }

  lemma RenderOne(name: string, a: string)
    ensures Render(name, [a]) == name + " " + a
  {
  }

  lemma RenderTwo(name: string, a: string, b: string)
    ensures Render(name, [a, b]) == name + " " + (a + " " + b)
  {
    assert [a, b][1..] == [b];
    assert Join([b], " ") == b;
    assert Join([a, b], " ") == a + " " + b;
  }

  lemma JoinFive(a: string, b: string, c: string, d: string, e: string, sep: string)
    ensures Join([a, b, c, d, e], sep) == a + sep + (b + sep + (c + sep + (d + sep + e)))
  {
    var p := [a, b, c, d, e];
    assert p[1..] == [b, c, d, e] && p[1..][1..] == [c, d, e];
    assert p[1..][1..][1..] == [d, e] && p[1..][1..][1..][1..] == [e];
    assert Join([d, e], sep) == d + sep + e;
    assert Join([c, d, e], sep) == c + sep + (d + sep + e);
    assert Join([b, c, d, e], sep) == b + sep + (c + sep + (d + sep + e));
  }

  lemma BaseUriEntry()
    ensures Render("base-uri", ["'none'"]) == "base-uri 'none'"
  {
    RenderOne("base-uri", "'none'");
  }

  lemma DefaultSrcEntry()
    ensures Render("default-src", ["'self'", "areweasyncyet.rs"]) == "default-src 'self' areweasyncyet.rs"
  {
    RenderTwo("default-src", "'self'", "areweasyncyet.rs");
  }

  lemma ObjectSrcEntry()
    ensures Render("object-src", ["'none'"]) == "object-src 'none'"
  {
    RenderOne("object-src", "'none'");
  }

  lemma ScriptSrcEntry()
    ensures Render("script-src", ["'self'", "'unsafe-inline'"]) == "script-src 'self' 'unsafe-inline'"
  {
    RenderTwo("script-src", "'self'", "'unsafe-inline'");
  }

  lemma TestEntry(i: nat)
    requires i < 4
    ensures RenderAll(TestOrder, TestDirectives)[i] == TestEntries[i]
  {
    var name := TestOrder[i];
    assert RenderAll(TestOrder, TestDirectives)[i] == Render(name, TestDirectives[name]);
    if i == 0 {
      assert TestDirectives[name] == ["'none'"];
      BaseUriEntry();
    } else if i == 1 {
      assert TestDirectives[name] == ["'self'", "areweasyncyet.rs"];
      DefaultSrcEntry();
    } else if i == 2 {
      assert TestDirectives[name] == ["'none'"];
      ObjectSrcEntry();
    } else {
      assert TestDirectives[name] == ["'self'", "'unsafe-inline'"];
      ScriptSrcEntry();
    }
  }

  lemma TestRenderAll()
    ensures RenderAll(TestOrder, TestDirectives) == TestEntries[..4]
  {
    forall i | 0 <= i < 4 ensures RenderAll(TestOrder, TestDirectives)[i] == TestEntries[i] {
      TestEntry(i);
    }
  }

  /** A list `Rendered` leaves from `token` alone is `entries` when
      `entries` is sorted and holds the renderings in one iteration order of
      the map, then `token`. */
  lemma RenderedIs(order: seq<string>, d: map<string, seq<string>>, token: string,
                   entries: seq<string>, p: seq<string>)
    requires d != map[] && IsEnumeration(order, d.Keys)
    requires entries == RenderAll(order, d) + [token] && Sorted(entries)
    requires Rendered([token], d, p)
    ensures p == entries
  {
    RenderAllBag(order, d);
    SortedUnique(p, entries);
  }

  /** Whatever order the map is visited in, the test's entries end up in
      one list, the sorted one. */
  lemma TestRendered(p: seq<string>)
    requires Rendered([UpgradeInsecureRequestsToken], TestDirectives, p)
    ensures p == TestEntries
  {
    TestOrderEnumerates();
    TestRenderAll();
    assert TestEntries == TestEntries[..4] + [UpgradeInsecureRequestsToken];
    TestEntriesSorted();
    assert "base-uri" in TestDirectives;
    RenderedIs(TestOrder, TestDirectives, UpgradeInsecureRequestsToken, TestEntries, p);
  }

  lemma TestJoin()
    ensures Join(TestEntries, "; ") == TestValue
  {
    var e := TestEntries;
    JoinFive(e[0], e[1], e[2], e[3], e[4], "; ");
  }

  lemma TestDirectivesSafe()
    ensures forall k :: k in TestDirectives ==>
              ValidHeaderValue(k) && forall s :: s in TestDirectives[k] ==> ValidHeaderValue(s)
  {
    assert ValidHeaderValue("'self'") && ValidHeaderValue("'none'");
    assert ValidHeaderValue("areweasyncyet.rs") && ValidHeaderValue("'unsafe-inline'");
    assert ValidHeaderValue("default-src") && ValidHeaderValue("script-src");
    assert ValidHeaderValue("object-src") && ValidHeaderValue("base-uri");
  }

  /** The two `default_src` calls both policy examples open with. */
  lemma DefaultSrcBuild()
    ensures WithSource(WithSource(map[], "default-src", "'self'"), "default-src", "areweasyncyet.rs")
            == map["default-src" := ["'self'", "areweasyncyet.rs"]]
  {
    assert [] + ["'self'"] == ["'self'"];
    var d1 := WithSource(map[], "default-src", "'self'");
    assert d1 == map["default-src" := ["'self'"]];
    assert ["'self'"] + ["areweasyncyet.rs"] == ["'self'", "areweasyncyet.rs"];
  }

  /** The `object_src` and `base_uri` calls both policy examples close with. */
  lemma ObjectSrcBaseUriBuild(d: map<string, seq<string>>)
    requires "object-src" !in d && "base-uri" !in d
    ensures WithSource(WithSource(d, "object-src", "'none'"), "base-uri", "'none'")
            == d["object-src" := ["'none'"]]["base-uri" := ["'none'"]]
  {
    assert [] + ["'none'"] == ["'none'"];
  }

  /** The builder calls of the integration test, one source per call, give
      the test's directives. */
  lemma TestBuild()
    ensures WithSource(WithSource(WithSource(WithSource(WithSource(WithSource(map[],
              "default-src", "'self'"), "default-src", "areweasyncyet.rs"),
              "script-src", "'self'"), "script-src", "'unsafe-inline'"),
              "object-src", "'none'"), "base-uri", "'none'")
            == TestDirectives
  {
    DefaultSrcBuild();
    var d2 := map["default-src" := ["'self'", "areweasyncyet.rs"]];
    assert [] + ["'self'"] == ["'self'"];
    var d3 := WithSource(d2, "script-src", "'self'");
    assert d3 == d2["script-src" := ["'self'"]];
    var d4 := WithSource(d3, "script-src", "'unsafe-inline'");
    assert ["'self'"] + ["'unsafe-inline'"] == ["'self'", "'unsafe-inline'"];
    assert d4 == d2["script-src" := ["'self'", "'unsafe-inline'"]];
    ObjectSrcBaseUriBuild(d4);
    var d6 := d4["object-src" := ["'none'"]]["base-uri" := ["'none'"]];
    assert d6.Keys == TestDirectives.Keys;
  }

  lemma TestTokenSafe()
    ensures ValidHeaderValue(UpgradeInsecureRequestsToken)
  {
  }

  /** The builder half of the integration test. */
  method BuildTestPolicy() returns (policy: ContentSecurityPolicy)
    ensures fresh(policy) && policy.Valid() && policy.HeaderSafe()
    ensures policy.directives == TestDirectives
    ensures policy.policy == [UpgradeInsecureRequestsToken] && !policy.reportOnlyFlag
  {
    assert Source.SameOrigin.AsRef() == "'self'" && Source.None.AsRef() == "'none'";
    assert Source.UnsafeInline.AsRef() == "'unsafe-inline'";
    policy := new ContentSecurityPolicy();
    policy.DefaultSrc(Source.SameOrigin.AsRef());
    policy.DefaultSrc("areweasyncyet.rs");
    policy.ScriptSrc(Source.SameOrigin.AsRef());
    policy.ScriptSrc(Source.UnsafeInline.AsRef());
    policy.ObjectSrc(Source.None.AsRef());
    policy.BaseUri(Source.None.AsRef());
    policy.UpgradeInsecureRequests();
    TestBuild();
    TestTokenSafe();
    TestDirectivesSafe();
  }

  /** The integration test `csp_test`: six sources on four directives, the
      `upgrade-insecure-requests` token, the fixed headers, then `apply`;
      the `content-security-policy` header holds the sorted entries. */
  method CspTest() returns (value: string)
    ensures value == TestValue
  {
    var policy := BuildTestPolicy();
    var headers := new HeaderMap();
    Armor.Armor(headers);
    policy.Apply(headers);
    TestRendered(policy.policy);
    TestJoin();
    value := headers.entries[PolicyHeader];
  }

  /** The directives of the module documentation example: those of the
      integration test with `'self'` alone under `script-src`. */
  const DocDirectives: map<string, seq<string>> := map[
    "default-src" := ["'self'", "areweasyncyet.rs"],
    "script-src" := ["'self'"],
    "object-src" := ["'none'"],
    "base-uri" := ["'none'"]]

  /** The entries of the documentation example after `value`, in sorted order. */
  const DocEntries: seq<string> := [
    "base-uri 'none'",
    "default-src 'self' areweasyncyet.rs",
    "object-src 'none'",
    "script-src 'self'",
    "upgrade-insecure-requests"]

  /** The value the documentation example expects, in pieces at its "; "
      separators. */
  const DocValue := "base-uri 'none'" + "; " + ("default-src 'self' areweasyncyet.rs" + "; " + ("object-src 'none'"
                    + "; " + ("script-src 'self'" + "; " + "upgrade-insecure-requests")))

  lemma DocEntriesSorted()
    ensures Sorted(DocEntries)
  {
    assert LessEq(DocEntries[0], DocEntries[1]);
    assert LessEq(DocEntries[1], DocEntries[2]);
    assert LessEq(DocEntries[2], DocEntries[3]);
    assert LessEq(DocEntries[3], DocEntries[4]);
    SortedFromNeighbours(DocEntries);
  }

  lemma DocOrderEnumerates()
    ensures IsEnumeration(TestOrder, DocDirectives.Keys)
  {
    assert DocDirectives.Keys == {"default-src", "script-src", "object-src", "base-uri"};
  }

  lemma ScriptSrcSelfEntry()
    ensures Render("script-src", ["'self'"]) == "script-src 'self'"
  {
    RenderOne("script-src", "'self'");
  }

  lemma DocEntry(i: nat)
    requires i < 4
    ensures RenderAll(TestOrder, DocDirectives)[i] == DocEntries[i]
  {
    var name := TestOrder[i];
    assert RenderAll(TestOrder, DocDirectives)[i] == Render(name, DocDirectives[name]);
    if i == 0 {
      assert DocDirectives[name] == ["'none'"];
      BaseUriEntry();
    } else if i == 1 {
      assert DocDirectives[name] == ["'self'", "areweasyncyet.rs"];
      DefaultSrcEntry();
    } else if i == 2 {
      assert DocDirectives[name] == ["'none'"];
      ObjectSrcEntry();
    } else {
      assert DocDirectives[name] == ["'self'"];
      ScriptSrcSelfEntry();
    }
  }

  lemma DocRenderAll()
    ensures RenderAll(TestOrder, DocDirectives) == DocEntries[..4]
  {
    forall i | 0 <= i < 4 ensures RenderAll(TestOrder, DocDirectives)[i] == DocEntries[i] {
      DocEntry(i);
    }
  }

  /** Whatever order the map is visited in, the documentation example's
      entries end up in the one sorted list. */
  lemma DocRendered(p: seq<string>)
    requires Rendered([UpgradeInsecureRequestsToken], DocDirectives, p)
    ensures p == DocEntries
  {
    DocOrderEnumerates();
    DocRenderAll();
    assert DocEntries == DocEntries[..4] + [UpgradeInsecureRequestsToken];
    DocEntriesSorted();
    assert "base-uri" in DocDirectives;
    RenderedIs(TestOrder, DocDirectives, UpgradeInsecureRequestsToken, DocEntries, p);
  }

  lemma DocJoin()
    ensures Join(DocEntries, "; ") == DocValue
  {
    var e := DocEntries;
    JoinFive(e[0], e[1], e[2], e[3], e[4], "; ");
  }

  lemma DocDirectivesSafe()
    ensures forall k :: k in DocDirectives ==>
              ValidHeaderValue(k) && forall s :: s in DocDirectives[k] ==> ValidHeaderValue(s)
  {
    assert ValidHeaderValue("'self'") && ValidHeaderValue("'none'") && ValidHeaderValue("areweasyncyet.rs");
    assert ValidHeaderValue("default-src") && ValidHeaderValue("script-src");
    assert ValidHeaderValue("object-src") && ValidHeaderValue("base-uri");
  }

  /** The builder calls of the documentation example give its directives. */
  lemma DocBuild()
    ensures WithSource(WithSource(WithSource(WithSource(WithSource(map[],
              "default-src", "'self'"), "default-src", "areweasyncyet.rs"),
              "script-src", "'self'"), "object-src", "'none'"), "base-uri", "'none'")
            == DocDirectives
  {
    DefaultSrcBuild();
    var d2 := map["default-src" := ["'self'", "areweasyncyet.rs"]];
    assert [] + ["'self'"] == ["'self'"];
    var d3 := WithSource(d2, "script-src", "'self'");
    assert d3 == d2["script-src" := ["'self'"]];
    ObjectSrcBaseUriBuild(d3);
    var d5 := d3["object-src" := ["'none'"]]["base-uri" := ["'none'"]];
    assert d5.Keys == DocDirectives.Keys;
  }

  /** The builder half of the documentation example. */
  method BuildDocPolicy() returns (policy: ContentSecurityPolicy)
    ensures fresh(policy) && policy.Valid() && policy.HeaderSafe()
    ensures policy.directives == DocDirectives
    ensures policy.policy == [UpgradeInsecureRequestsToken] && !policy.reportOnlyFlag
  {
    assert Source.SameOrigin.AsRef() == "'self'" && Source.None.AsRef() == "'none'";
    policy := new ContentSecurityPolicy();
    policy.DefaultSrc(Source.SameOrigin.AsRef());
    policy.DefaultSrc("areweasyncyet.rs");
    policy.ScriptSrc(Source.SameOrigin.AsRef());
    policy.ObjectSrc(Source.None.AsRef());
    policy.BaseUri(Source.None.AsRef());
    policy.UpgradeInsecureRequests();
    DocBuild();
    TestTokenSafe();
    DocDirectivesSafe();
  }

  /** The module documentation example: five sources on four directives,
      the `upgrade-insecure-requests` token, the fixed headers, then `apply`. */
  method DocExample() returns (value: string)
    ensures value == DocValue
  {
    var policy := BuildDocPolicy();
    var headers := new HeaderMap();
    Armor.Armor(headers);
    policy.Apply(headers);
    DocRendered(policy.policy);
    DocJoin();
    value := headers.entries[PolicyHeader];
  }

  /** The one sorted list holding just `e`. */
  lemma SortedOfOne(e: string, p: seq<string>)
    requires Sorted(p) && multiset(p) == multiset{e}
    ensures p == [e]
  {
    SortedUnique(p, [e]);
  }

  /** The one sorted list holding `e` twice. */
  lemma SortedOfTwo(e: string, p: seq<string>)
    requires Sorted(p) && multiset(p) == multiset{e, e}
    ensures p == [e, e]
  {
    LessEqReflexive(e);
    SortedUnique(p, [e, e]);
  }

  /** A single directive renders to its one entry, from no entries. */
  lemma SingleRendered(name: string, sources: seq<string>, p: seq<string>)
    requires Rendered([], map[name := sources], p)
    ensures p == [Render(name, sources)]
  {
    var d, e := map[name := sources], Render(name, sources);
    assert RenderAll([name], d) == [e];
    RenderAllBag([name], d);
    SortedOfOne(e, p);
  }

  /** Two copies of one entry, sorted, are the two copies. */
  lemma DoubleRendered(name: string, sources: seq<string>, p: seq<string>)
    requires Rendered([Render(name, sources)], map[name := sources], p)
    ensures p == [Render(name, sources), Render(name, sources)]
  {
    var d, e := map[name := sources], Render(name, sources);
    assert RenderAll([name], d) == [e];
    RenderAllBag([name], d);
    SortedOfTwo(e, p);
  }

  lemma SelfSafe()
    ensures ValidHeaderValue("'self'") && ValidHeaderValue("default-src")
  {
  }

  /** A builder with the one source `'self'` on `default-src`. */
  method SelfPolicy() returns (policy: ContentSecurityPolicy)
    ensures fresh(policy) && policy.Valid() && policy.HeaderSafe()
    ensures policy.directives == map["default-src" := ["'self'"]]
    ensures policy.policy == [] && !policy.reportOnlyFlag
  {
    policy := new ContentSecurityPolicy();
    policy.DefaultSrc("'self'");
    assert [] + ["'self'"] == ["'self'"];
    SelfSafe();
  }

  /** After `report_only`, `apply` writes only the report-only header. */
  method ReportOnlyExample() returns (headers: HeaderMap)
    ensures headers.entries == map[ReportOnlyPolicyHeader := "default-src 'self'"]
  {
    var policy := SelfPolicy();
    policy.ReportOnly();
    headers := new HeaderMap();
    policy.Apply(headers);
    SingleRendered("default-src", ["'self'"], policy.policy);
    RenderOne("default-src", "'self'");
    assert Join(policy.policy, "; ") == "default-src 'self'";
    assert headers.entries.Keys == {ReportOnlyPolicyHeader};
  }

  /** The lists two renderings of `default-src 'self'` leave, joined. */
  lemma SelfRenderedTwice(p1: seq<string>, p2: seq<string>)
    requires Rendered([], map["default-src" := ["'self'"]], p1)
    requires Rendered(p1, map["default-src" := ["'self'"]], p2)
    ensures Join(p1, "; ") == "default-src 'self'"
    ensures Join(p2, "; ") == Join(p1, "; ") + "; " + Join(p1, "; ")
  {
    SingleRendered("default-src", ["'self'"], p1);
    RenderOne("default-src", "'self'");
    DoubleRendered("default-src", ["'self'"], p2);
  }

  /** `apply` renders afresh each time it runs and the pushed entries stay:
      a second `apply` of the same builder writes the directive twice. */
  method ApplyTwice() returns (first: string, second: string)
    ensures first == "default-src 'self'"
    ensures second == first + "; " + first
  {
    var policy := SelfPolicy();
    var headers := new HeaderMap();
    policy.Apply(headers);
    ghost var p1 := policy.policy;
    first := headers.entries[PolicyHeader];
    policy.Apply(headers);
    SelfRenderedTwice(p1, policy.policy);
    second := headers.entries[PolicyHeader];
  }

  /** The crate-level example: after `armor`, the content-type and XSS
      headers are set. */
  method ArmorExample() returns (headers: HeaderMap)
    ensures Armor.ContentTypeOptionsName in headers.entries
    ensures headers.entries[Armor.ContentTypeOptionsName] == "nosniff"
    ensures Armor.XssProtectionName in headers.entries
    ensures headers.entries[Armor.XssProtectionName] == "1; mode=block"
  {
    headers := new HeaderMap();
    Armor.Armor(headers);
  }

  /** The `frameguard` example: no guard means `sameorigin`. */
  method FrameguardExample() returns (headers: HeaderMap)
    ensures headers.entries == map[Armor.FrameOptionsName := "sameorigin"]
  {
    headers := new HeaderMap();
    Armor.Frameguard(headers, Option.None);
  }

  /** The `hide_powered_by` example: a header set as `X-Powered-By` is gone. */
  method HidePoweredByExample() returns (headers: HeaderMap)
    ensures headers.entries == map[]
  {
    headers := new HeaderMap();
    headers.Insert("X-Powered-By", "Tide/Rust");
    assert Lower("X-Powered-By") == Armor.PoweredByName;
    Armor.HidePoweredBy(headers);
  }
}
