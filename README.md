# armor: security headers and the Content-Security-Policy builder, in Dafny

This project models the core of the Rust crate `armor`, which hardens HTTP
responses by writing security headers into an `http::HeaderMap`.

- **`Armor` (src/lib.rs).** There are six header functions, each an in-place
  edit of the caller's header map. `dns_prefetch_control`, `frameguard`,
  `hsts`, `dont_sniff_mimetype` and `xss_filter` overwrite one header.
  `hide_powered_by` removes one. `armor` runs six of them in a fixed order.
- **`Http`.** The header map is a class whose one field maps lower-cased
  header names to values. `Insert` overwrites and `Remove` deletes. A
  header value is a string that `HeaderValue::from_str` accepts: tab, or any
  character from space upwards except DEL.
- **`Csp` (src/csp.rs).** `ContentSecurityPolicy` is a class with the crate's
  three fields:
  - `policy`, a list of opaque entries;
  - `directives`, a map from directive name to its list of sources;
  - `reportOnlyFlag`.

  The builder methods are imperative: directive methods append one source to
  their key's list, and the bare-token and `report_to` methods push onto
  `policy`. `Value` loops over the directive map in an arbitrary order. Each
  turn pushes `"<name> <sources joined by ' '>"` and sorts the list; at the
  end the list is joined with `"; "`. `Apply` writes that value under
  `content-security-policy`, or under `content-security-policy-report-only`
  once `ReportOnly` was called.
- **`CspReportTo`.** The `report-to` descriptors and the JSON text
  serde_json gives them: compact, fields in declaration order, and `group` and
  `include_subdomains` left out when `None`.
- **`Strings`.** Rust's `String` order and `join`:
  - the lexicographic order, a total order;
  - an insertion sort standing for `slice::sort`;
  - the fact that a sorted permutation is unique.
- **`Examples`.** Worked through the model:
  - the crate's integration test `csp_test` and the module documentation
    example of the policy builder;
  - the documentation examples of `armor`, `frameguard` and
    `hide_powered_by`;
  - two examples of this project's own, a report-only `apply` and a builder
    applied twice.

  Each one proves the exact header value it expects.

The order in which `HashMap` iterates is not specified, so `Value` picks an
arbitrary remaining key at each turn. Its contract is the predicate
`Rendered(before, d, after)`:
- with no directive, the list is untouched;
- otherwise it is sorted and is a permutation of the old entries plus one
  rendered entry per directive.

`RenderedDeterministic` shows that this fixes the list, whatever the order.
`RenderedInAnyOrder` shows that the list is the sort of the entries in any
enumeration of the keys.

Notes on the code:
- directive methods take one source per call;
- `report_uri` stores its URI in the directive map under `report-uri`;
- `require_sri_for`'s key `"require-sri-for "` has a trailing space, so its
  entry renders with two spaces after the name;
- with no directives, `value` does not sort;
- each `value` call pushes the directive entries again;
- `ReportTo` and `ReportToEndpoint` have private fields and no constructor
  (src/csp.rs:100-114). Callers outside the crate can therefore only pass an
  empty list to `report_to`. The model lets any descriptor through.

## Model

| member | source | states |
|---|---|---|
| Csp.Source.Display | src/csp.rs:59-76 | every source has a non-empty text |
| Csp.Source.AsRef | src/csp.rs:78-95 | non-empty; single-quoted exactly for the six keyword sources; ends in `:` exactly for the five scheme sources |
| Csp.SourceTexts | src/csp.rs:59-95 | `Display` and `as_ref` give the same text for every variant, and no two variants share a text |
| Csp.ContentSecurityPolicy.constructor | src/csp.rs:138-144 | `new()` gives no entries, no directives and the flag false |
| Csp.ContentSecurityPolicy.Default | src/csp.rs:124-133 | `default()` gives the single opaque entry "script-src 'self'; object-src 'self'", no directives, flag false |
| Csp.New | src/csp.rs:333-339 | the free `new()` gives a fresh, empty builder with the flag false |
| Csp.WithSource | src/csp.rs:146-151 | the key is present afterwards; its list is the old list (empty if absent) with the source at the end; other keys keep their lists |
| Csp.ContentSecurityPolicy.InsertDirective | src/csp.rs:146-151 | the map gains the source at the end of the directive's list; entries and flag unchanged; the builder invariant is kept |
| Csp.WithSourcesMerges | src/csp.rs:146-151 | repeated calls for one directive build one list holding all the sources in call order; other directives keep theirs |
| Csp.Render | src/csp.rs:314 | an entry is the directive name and one space, followed by its sources joined by single spaces: it starts with the name and the space, and its length is theirs plus that of the joined sources |
| Csp.RenderAppend | src/csp.rs:314 | a directive with one more source renders as the old rendering, a space and the new source |
| Csp.ContentSecurityPolicy.BaseUri | src/csp.rs:155-158 | appends the source under `base-uri`; nothing else changes |
| Csp.ContentSecurityPolicy.ConnectSrc | src/csp.rs:170-173 | appends the source under `connect-src`; nothing else changes |
| Csp.ContentSecurityPolicy.DefaultSrc | src/csp.rs:177-180 | appends the source under `default-src`; nothing else changes |
| Csp.ContentSecurityPolicy.FontSrc | src/csp.rs:184-187 | appends the source under `font-src`; nothing else changes |
| Csp.ContentSecurityPolicy.FormAction | src/csp.rs:191-194 | appends the source under `form-action`; nothing else changes |
| Csp.ContentSecurityPolicy.FrameAncestors | src/csp.rs:198-201 | appends the source under `frame-ancestors`; nothing else changes |
| Csp.ContentSecurityPolicy.FrameSrc | src/csp.rs:205-208 | appends the source under `frame-src`; nothing else changes |
| Csp.ContentSecurityPolicy.ImgSrc | src/csp.rs:212-215 | appends the source under `img-src`; nothing else changes |
| Csp.ContentSecurityPolicy.MediaSrc | src/csp.rs:219-222 | appends the source under `media-src`; nothing else changes |
| Csp.ContentSecurityPolicy.ObjectSrc | src/csp.rs:226-229 | appends the source under `object-src`; nothing else changes |
| Csp.ContentSecurityPolicy.PluginTypes | src/csp.rs:233-236 | appends the source under `plugin-types`; nothing else changes |
| Csp.ContentSecurityPolicy.RequireSriFor | src/csp.rs:240-243 | appends the source under the key `"require-sri-for "`, trailing space included; nothing else changes |
| Csp.ContentSecurityPolicy.ReportUri | src/csp.rs:247-250 | appends the URI under `report-uri` in the directive map; the entry list is untouched |
| Csp.ContentSecurityPolicy.Sandbox | src/csp.rs:271-274 | appends the source under `sandbox`; nothing else changes |
| Csp.ContentSecurityPolicy.ScriptSrc | src/csp.rs:278-281 | appends the source under `script-src`; nothing else changes |
| Csp.ContentSecurityPolicy.StyleSrc | src/csp.rs:285-288 | appends the source under `style-src`; nothing else changes |
| Csp.ContentSecurityPolicy.WorkerSrc | src/csp.rs:300-303 | appends the source under `worker-src`; nothing else changes |
| Csp.ContentSecurityPolicy.BlockAllMixedContent | src/csp.rs:162-166 | pushes exactly `block-all-mixed-content` onto the entries; directives and flag unchanged |
| Csp.ContentSecurityPolicy.UpgradeInsecureRequests | src/csp.rs:292-296 | pushes exactly `upgrade-insecure-requests` onto the entries; directives and flag unchanged |
| Csp.ReportToEntry | src/csp.rs:256-258 | the entry for one descriptor is `report-to ` followed by a JSON object: it starts with the prefix, the next character is `{` and the last is `}` |
| Csp.ReportToEntries | src/csp.rs:255-260 | one entry per descriptor, entry `i` being the entry for descriptor `i` |
| Csp.ContentSecurityPolicy.ReportTo | src/csp.rs:254-267 | the entries gain one `"report-to " + json` per descriptor, in input order; directives and flag unchanged |
| CspReportTo.ToJson | src/csp.rs:99-114 | the compact JSON text of a descriptor (optional group, `max_age`, the endpoint objects, optional `include_subdomains`, in declaration order) is one object: it opens with `{` and closes with `}` |
| CspReportTo.GroupOmittedWhenNone | src/csp.rs:101-102 | the JSON text starts with the `group` field exactly when it is set, and then holds its value first |
| CspReportTo.IncludeSubdomainsOmittedWhenNone | src/csp.rs:105-106 | the JSON text ends with the `include_subdomains` field exactly when it is set; otherwise it ends with the endpoint list |
| CspReportTo.EscapeChar | src/csp.rs:99-106 | the JSON escape of a character: ordinary characters stay as they are; quote, backslash and control characters start with a backslash |
| CspReportTo.NatToDecimal | src/csp.rs:103 | the decimal text of `max_age` is non-empty and all digits |
| CspReportTo.DecimalRoundTrip | src/csp.rs:103 | reading the digits back gives the number |
| Csp.ContentSecurityPolicy.ReportOnly | src/csp.rs:306-309 | sets the flag; entries and directives unchanged |
| Csp.ContentSecurityPolicy.Value | src/csp.rs:312-319 | for any iteration order: no directive leaves the entries as they were; otherwise the entries become sorted and a permutation of the old entries plus one rendering per directive; the list grows by the number of directives; the result is the list joined with "; "; directives and flag unchanged; the builder invariant and header safety are kept |
| Csp.PushedStep | src/csp.rs:314-316 | one turn of the loop (push the rendering of one key, sort) keeps the loop invariant |
| Csp.PushedAll | src/csp.rs:313-318 | when every key has been visited once, the entries are as `Rendered` says and one longer per directive |
| Csp.RenderAllBag | src/csp.rs:313-315 | whatever order the keys are visited in, the renderings pushed are the same collection |
| Csp.RenderedBagSize | src/csp.rs:313-315 | one rendering per directive |
| Csp.RenderedBagMembers | src/csp.rs:313-315 | each rendering in the collection comes from a key of the map and its list |
| Csp.RenderedDeterministic | src/csp.rs:312-319 | the rendered list depends only on the old entries and the map, not on the iteration order |
| Csp.RenderedInAnyOrder | src/csp.rs:313-317 | the rendered list is exactly the sort of the old entries followed by the renderings in any enumeration of the keys |
| Csp.RenderTwiceDiffers | src/csp.rs:312-319 | a second `value()` grows the list by the number of directives again, pushes every rendering a second time and gives a different header value |
| Csp.RenderedKeepsSafe | src/csp.rs:313-316 | when every entry, name and source is a valid header value, every entry of the rendered list is one too |
| Csp.RenderedEntryShape | src/csp.rs:146-151 | when every key is a directive name with at least one source, as the builder keeps it, every rendering starts with a directive name, a space and that directive's first source |
| Csp.RenderedIsHeaderValue | src/csp.rs:323 | when every entry, name and source is a valid header value, so is the joined value, so the `parse().unwrap()` succeeds |
| Csp.HeaderFor | src/csp.rs:324-328 | the header is `content-security-policy` exactly when the flag is false, and the report-only header exactly when it is true |
| Csp.PolicyHeaderNormalised | src/csp.rs:325 | `Content-Security-Policy` normalises to `content-security-policy` |
| Csp.ReportOnlyPolicyHeaderNormalised | src/csp.rs:327 | `Content-Security-Policy-Report-Only` normalises to `content-security-policy-report-only` |
| Csp.ContentSecurityPolicy.Apply | src/csp.rs:322-329 | renders as `Value` does, then writes the joined value under the header the flag selects, overwriting; every other header keeps its value; every stored string stays a valid header value, so `apply` can be called again |
| Strings.LessEqTotal | src/csp.rs:316 | any two strings are comparable |
| Strings.LessEqAntisymmetric | src/csp.rs:316 | strings below each other are equal |
| Strings.LessEqTransitive | src/csp.rs:316 | the order is transitive |
| Strings.InsertSorted | src/csp.rs:316 | inserting into a sorted list keeps it sorted |
| Strings.SortSorted | src/csp.rs:316 | the sort's result is ascending |
| Strings.SortStrings | src/csp.rs:316 | `sort` leaves an ascending permutation of its list |
| Strings.SortedUnique | src/csp.rs:316 | two ascending lists with the same elements are equal |
| Strings.Join | src/csp.rs:314-318 | the parts with the separator between neighbours; a non-empty join starts with its first part |
| Strings.JoinLength | src/csp.rs:318 | the joined text is as long as the parts plus one separator between each pair |
| Strings.JoinChars | src/csp.rs:318 | a joined text uses only characters that occur in the parts or the separator |
| Http.ValidHeaderValue | src/csp.rs:323 | the strings `parse::<HeaderValue>()` accepts: every character is a tab, or a space or above except DEL |
| Http.HeaderMap.Insert | src/lib.rs:50 | `insert` stores the value under the lower-cased name, overwriting; every other name keeps its value |
| Http.HeaderMap.Remove | src/lib.rs:95 | `remove` deletes the lower-cased name; every other name keeps its value |
| Armor.DnsPrefetchControl | src/lib.rs:49-51 | `x-dns-prefetch-control` becomes `on`, overwriting; nothing else changes |
| Armor.FrameOptionsValue | src/lib.rs:73-77 | `deny` exactly for `Some(Deny)`; `sameorigin` for `None` and `Some(SameOrigin)` |
| Armor.Frameguard | src/lib.rs:73-79 | `x-frame-options` becomes the guard's value, overwriting; nothing else changes |
| Armor.HidePoweredBy | src/lib.rs:94-96 | `x-powered-by` is absent afterwards; nothing else changes, so it does nothing when it was absent |
| Armor.Hsts | src/lib.rs:112-115 | `strict-transport-security` becomes `max-age=5184000`; nothing else changes |
| Armor.DontSniffMimetype | src/lib.rs:129-131 | `x-content-type-options` becomes `nosniff`; nothing else changes |
| Armor.XssFilter | src/lib.rs:144-146 | `x-xss-protection` becomes `1; mode=block`; nothing else changes |
| Armor.Armored | src/lib.rs:29-36 | the five fixed headers hold their values (`x-frame-options` is `sameorigin`), `x-powered-by` is absent, every other header is unchanged |
| Armor.ArmorSteps | src/lib.rs:29-36 | the six steps in the crate's order compose to `Armored` |
| Armor.Armor | src/lib.rs:29-36 | the header map becomes `Armored` of the old one |
| Armor.ArmoredIdempotent | src/lib.rs:29-36 | applying the protections twice gives the map that applying them once gives |
| Examples.CspTest | tests/test.rs:10-24 | the test's calls give exactly "base-uri 'none'; default-src 'self' areweasyncyet.rs; object-src 'none'; script-src 'self' 'unsafe-inline'; upgrade-insecure-requests" under `content-security-policy` |
| Examples.TestRendered | tests/test.rs:12-24 | for the test's directives and token, every iteration order leaves the same five sorted entries |
| Examples.DocExample | src/csp.rs:9-21 | the module documentation example's calls give exactly "base-uri 'none'; default-src 'self' areweasyncyet.rs; object-src 'none'; script-src 'self'; upgrade-insecure-requests" under `content-security-policy` |
| Examples.DocRendered | src/csp.rs:10-21 | for the documentation example's directives and token, every iteration order leaves the same five sorted entries |
| Examples.ReportOnlyExample | src/csp.rs:306-329 | after `report_only`, `apply` writes only `content-security-policy-report-only` |
| Examples.ApplyTwice | src/csp.rs:312-329 | for one directive, the first `apply` writes `default-src 'self'` and a second `apply` of the same builder writes it twice, joined by "; " |
| Examples.ArmorExample | src/lib.rs:22-28 | after `armor`, `x-content-type-options` is `nosniff` and `x-xss-protection` is `1; mode=block` |
| Examples.FrameguardExample | src/lib.rs:66-71 | `frameguard(None)` on an empty map gives just `x-frame-options: sameorigin` |
| Examples.HidePoweredByExample | src/lib.rs:86-92 | a header inserted as `X-Powered-By` is gone after `hide_powered_by` |

## Left out

- Csp.Source.Display: its own contract says only that the text is non-empty; `SourceTexts` states that it equals `AsRef` for every variant.
- The `Err` branch of `serde_json::to_string` in `report_to`, and its `println!`, are not modelled. Serialising this struct cannot fail, because it holds only strings, an `i32`, a list and options. The print is I/O.
- `serde_json` itself is foreign code. It is modelled by a compact serializer following serde_json's escaping rules. Only the field-omission rule and the digit round trip of `max_age` are proved about it.
- `.parse::<HeaderValue>().unwrap()`: the panic path is not modelled. Header values are a subset type. `Apply` requires `HeaderSafe()`, meaning every stored string is a valid header value, and `RenderedIsHeaderValue` shows the joined value is then valid.
- `http::HeaderMap` is modelled without case-insensitive hashing and without multi-value storage: one value per lower-cased name, with `insert` overwriting and `remove` deleting.
- The methods' `&mut Self` return value, used for chaining, is not modelled. A chain is a sequence of calls on the same object.
- Sources are passed as strings, as `AsRef<str>` produces them. A `Source` value is passed as `s.AsRef()`.
- `HashMap` iteration order is an arbitrary choice at each turn of `Value`'s loop; no concrete order is modelled.
- Csp.ContentSecurityPolicy.Value: pushes and sorts on a local copy of the list and writes it back to the field once, after the loop. Nothing reads the field in between, so the final state is the same.
- Strings.SortStrings: the standard library's sort is represented by its contract, an ascending permutation, with an insertion sort as the witness. Equal strings are identical, so stability does not matter.
- examples/content_security_policy.rs is not part of this model. It calls functions that src/lib.rs does not define, and its expected output is unsorted.
- `should_work` in tests/test.rs is trivial.
- The doc examples of `dns_prefetch_control`, `hsts`, `dont_sniff_mimetype` and `xss_filter` are not worked separately. Each is the method's own postcondition applied to an empty map.
