/**
 The `report-to` endpoint descriptors of the CSP builder and their JSON
 text, written as `serde_json::to_string` writes a struct deriving
 `Serialize`: compact (no spaces), fields in declaration order under their
 Rust names, `group` and `include_subdomains` left out when `None`.
 */
module CspReportTo {
  import opened Wrappers

  /** Rust's `i32`. */
  type Int32 = x: int | -0x8000_0000 <= x < 0x8000_0000

  datatype ReportToEndpoint = ReportToEndpoint(url: string)

  datatype ReportTo = ReportTo(
    group: Option<string>,
    maxAge: Int32,
    endpoints: seq<ReportToEndpoint>,
    includeSubdomains: Option<bool>)

  function HexDigit(n: nat): char
    requires n < 16
  {
    "0123456789abcdef"[n]
  }

  /** serde_json's escape of one character: quote and backslash behind a
      backslash, the five short control escapes, the other control
      characters as `\u00XX` in lower-case hex, everything else as it is. */
  function EscapeChar(c: char): (e: string)
    ensures |e| > 0
    ensures c >= ' ' && c != '"' && c != '\\' ==> e == [c]
    ensures c < ' ' || c == '"' || c == '\\' ==> e[0] == '\\'
  {
    if c == '"' then "\\\""
    else if c == '\\' then "\\\\"
    else if c == '\U{8}' then "\\b"
    else if c == '\U{C}' then "\\f"
    else if c == '\n' then "\\n"
    else if c == '\r' then "\\r"
    else if c == '\t' then "\\t"
    else if c < ' ' then "\\u00" + [HexDigit(c as int / 16), HexDigit(c as int % 16)]
    else [c]
  }

  function Escape(s: string): string
  {
    if s == [] then "" else EscapeChar(s[0]) + Escape(s[1..])
  }

  /** A JSON string literal. */
  function JsonString(s: string): string
  {
    "\"" + Escape(s) + "\""
  }

  function DigitChar(d: nat): char
    requires d < 10
  {
    "0123456789"[d]
  }

  /** Decimal digits of `n`, most significant first. */
  function NatToDecimal(n: nat): (s: string)
    ensures |s| > 0
    ensures forall i :: 0 <= i < |s| ==> '0' <= s[i] <= '9'
  {
    if n < 10 then [DigitChar(n)] else NatToDecimal(n / 10) + [DigitChar(n % 10)]
  }

  /** Reading the digits back gives the number. */
  function DecimalValue(s: string): int
  {
    if s == [] then 0 else DecimalValue(s[..|s| - 1]) * 10 + (s[|s| - 1] as int - '0' as int)
  }

  lemma {:induction false} DecimalRoundTrip(n: nat)
    ensures DecimalValue(NatToDecimal(n)) == n
  {
    var s := NatToDecimal(n);
    if n >= 10 {
      DecimalRoundTrip(n / 10);
      assert s[..|s| - 1] == NatToDecimal(n / 10);
    }
  }

  function JsonInt(n: int): string
  {
    if n < 0 then "-" + NatToDecimal(-n) else NatToDecimal(n)
  }

  function JsonBool(b: bool): string
  {
    if b then "true" else "false"
  }

  function EndpointJson(e: ReportToEndpoint): string
  {
    "{\"url\":" + JsonString(e.url) + "}"
  }

  /** The endpoint objects, comma-separated. */
  function EndpointList(es: seq<ReportToEndpoint>): string
  {
    if es == [] then ""
    else if |es| == 1 then EndpointJson(es[0])
    else EndpointJson(es[0]) + "," + EndpointList(es[1..])
  }

  function EndpointsJson(es: seq<ReportToEndpoint>): string
  {
    "[" + EndpointList(es) + "]"
  }

  const GroupKey := "{\"group\":"
  const IncludeSubdomainsKey := ",\"include_subdomains\":"

  /** The opening brace, then the `group` field and its comma when set. */
  function Opening(group: Option<string>): string
  {
    if group.Some? then GroupKey + JsonString(group.value) + "," else "{"
  }

  /** The `max_age` and `endpoints` fields, always present. */
  function RequiredFields(r: ReportTo): string
  {
    "\"max_age\":" + JsonInt(r.maxAge) + ",\"endpoints\":" + EndpointsJson(r.endpoints)
  }

  /** The `include_subdomains` field and its comma when set, then the
      closing brace. */
  function Closing(includeSubdomains: Option<bool>): string
  {
    if includeSubdomains.Some? then IncludeSubdomainsKey + JsonBool(includeSubdomains.value) + "}" else "}"
  }

  /** `serde_json::to_string` of a descriptor. Serialising this struct
      cannot fail: it holds only strings, an integer, a list and booleans. */
  function ToJson(r: ReportTo): (j: string)
    ensures |j| > 1 && j[0] == '{' && j[|j| - 1] == '}'
  {
    assert GroupKey[0] == '{';
    Opening(r.group) + RequiredFields(r) + Closing(r.includeSubdomains)
  }

  predicate StartsWith(s: string, p: string)
  {
    |p| <= |s| && s[..|p|] == p
  }

  predicate EndsWith(s: string, p: string)
  {
    |p| <= |s| && s[|s| - |p|..] == p
  }

  lemma StartsWithConcat(p: string, t: string)
    ensures StartsWith(p + t, p)
  {
    assert (p + t)[..|p|] == p;
  }

  lemma StartsWithTransitive(s: string, p: string, q: string)
    requires StartsWith(s, p) && StartsWith(p, q)
    ensures StartsWith(s, q)
  {
    assert s[..|q|] == s[..|p|][..|q|];
  }

  lemma EndsWithConcat(h: string, p: string)
    ensures EndsWith(h + p, p)
  {
    assert (h + p)[|h|..] == p;
  }

  /** The `group` field is written exactly when it is set, first. */
  lemma GroupOmittedWhenNone(r: ReportTo)
    ensures StartsWith(ToJson(r), GroupKey) <==> r.group.Some?
    ensures r.group.Some? ==> StartsWith(ToJson(r), GroupKey + JsonString(r.group.value) + ",")
  {
    var o, f := Opening(r.group), RequiredFields(r);
    StartsWithConcat(o + f, Closing(r.includeSubdomains));
    StartsWithConcat(o, f);
    StartsWithTransitive(ToJson(r), o + f, o);
    if r.group.None? {
      assert ToJson(r)[2] == f[1] == 'm';
      assert GroupKey[2] == 'g';
    } else {
      StartsWithConcat(GroupKey + JsonString(r.group.value), ",");
      StartsWithConcat(GroupKey, JsonString(r.group.value));
      StartsWithTransitive(o, GroupKey + JsonString(r.group.value), GroupKey);
      StartsWithTransitive(ToJson(r), o, GroupKey);
    }
  }

  /** The `include_subdomains` field is written exactly when it is set, last;
      without it the text ends with the endpoint list. */
  lemma IncludeSubdomainsOmittedWhenNone(r: ReportTo)
    ensures EndsWith(ToJson(r), "]}") <==> r.includeSubdomains.None?
    ensures r.includeSubdomains.Some? ==>
              EndsWith(ToJson(r), IncludeSubdomainsKey + JsonBool(r.includeSubdomains.value) + "}")
  {
    var h, c := Opening(r.group) + RequiredFields(r), Closing(r.includeSubdomains);
    var j := ToJson(r);
    EndsWithConcat(h, c);
    if r.includeSubdomains.Some? {
      assert j[|j| - 2] == c[|c| - 2] == 'e';
    } else {
      var e := EndpointsJson(r.endpoints);
      assert h[|h| - 1] == e[|e| - 1] == ']';
      assert j[|j| - 2..] == "]}";
    }
  }
}
