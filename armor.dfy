/**
 The fixed security headers of the crate root: each function overwrites or
 removes one header of the caller's map, and `Armor` applies six of them.
 */
module Armor {
  import opened Wrappers
  import opened Http

  const DnsPrefetchControlName := "x-dns-prefetch-control"
  const ContentTypeOptionsName := "x-content-type-options"
  const FrameOptionsName := "x-frame-options"
  const PoweredByName := "x-powered-by"
  const StrictTransportSecurityName := "strict-transport-security"
  const XssProtectionName := "x-xss-protection"

  /** Sets `X-DNS-Prefetch-Control` to `on`. */
  method DnsPrefetchControl(headers: HeaderMap)
    modifies headers
    ensures headers.entries == old(headers.entries)[DnsPrefetchControlName := "on"]
  {
    assert Lower("X-DNS-Prefetch-Control") == DnsPrefetchControlName;
    headers.Insert("X-DNS-Prefetch-Control", "on");
  }

  datatype FrameOptions = SameOrigin | Deny

  /** The `X-Frame-Options` value for a guard; no guard means `sameorigin`. */
  function FrameOptionsValue(guard: Option<FrameOptions>): (v: HeaderValue)
    ensures v == "deny" <==> guard == Some(Deny)
    ensures v == "sameorigin" <==> guard != Some(Deny)
  {
    match guard
    case None | Some(SameOrigin) => "sameorigin"
    case Some(Deny) => "deny"
  }

  /** Sets `X-Frame-Options` against clickjacking. */
  method Frameguard(headers: HeaderMap, guard: Option<FrameOptions>)
    modifies headers
    ensures headers.entries == old(headers.entries)[FrameOptionsName := FrameOptionsValue(guard)]
  {
    assert Lower("X-Frame-Options") == FrameOptionsName;
    var kind := FrameOptionsValue(guard);
    headers.Insert("X-Frame-Options", kind);
  }

  /** Removes `X-Powered-By`; nothing happens when it is absent. */
  method HidePoweredBy(headers: HeaderMap)
    modifies headers
    ensures headers.entries == old(headers.entries) - {PoweredByName}
    ensures PoweredByName !in old(headers.entries) ==> headers.entries == old(headers.entries)
  {
    assert Lower("X-Powered-By") == PoweredByName;
    headers.Remove("X-Powered-By");
  }

  /** Sets `Strict-Transport-Security` to sixty days. */
  method Hsts(headers: HeaderMap)
    modifies headers
    ensures headers.entries == old(headers.entries)[StrictTransportSecurityName := "max-age=5184000"]
  {
    assert Lower("Strict-Transport-Security") == StrictTransportSecurityName;
    var val: HeaderValue := "max-age=5184000";
    headers.Insert("Strict-Transport-Security", val);
  }

  /** Sets `X-Content-Type-Options` to `nosniff`. */
  method DontSniffMimetype(headers: HeaderMap)
    modifies headers
    ensures headers.entries == old(headers.entries)[ContentTypeOptionsName := "nosniff"]
  {
    assert Lower("X-Content-Type-Options") == ContentTypeOptionsName;
    headers.Insert("X-Content-Type-Options", "nosniff");
  }

  /** Sets `X-XSS-Protection` to `1; mode=block`. */
  method XssFilter(headers: HeaderMap)
    modifies headers
    ensures headers.entries == old(headers.entries)[XssProtectionName := "1; mode=block"]
  {
    assert Lower("X-XSS-Protection") == XssProtectionName;
    headers.Insert("X-XSS-Protection", "1; mode=block");
  }

  /** The five headers `Armor` sets, with their values. */
  const ArmorHeaders: map<string, HeaderValue> := map[
    DnsPrefetchControlName := "on",
    ContentTypeOptionsName := "nosniff",
    FrameOptionsName := "sameorigin",
    StrictTransportSecurityName := "max-age=5184000",
    XssProtectionName := "1; mode=block"]

  /** What `Armor` leaves: the old headers without `x-powered-by`, the five
      fixed headers laid over them. */
  function Armored(m: map<string, HeaderValue>): (r: map<string, HeaderValue>)
    ensures DnsPrefetchControlName in r && r[DnsPrefetchControlName] == "on"
    ensures ContentTypeOptionsName in r && r[ContentTypeOptionsName] == "nosniff"
    ensures FrameOptionsName in r && r[FrameOptionsName] == "sameorigin"
    ensures StrictTransportSecurityName in r && r[StrictTransportSecurityName] == "max-age=5184000"
    ensures XssProtectionName in r && r[XssProtectionName] == "1; mode=block"
    ensures PoweredByName !in r
    ensures forall k :: k !in ArmorHeaders && k != PoweredByName ==>
              (k in r <==> k in m) && (k in m ==> r[k] == m[k])
  {
    (m - {PoweredByName}) + ArmorHeaders
  }

  /** Applying the protections twice does what applying them once does. */
  lemma ArmoredIdempotent(m: map<string, HeaderValue>)
    ensures Armored(Armored(m)) == Armored(m)
  {
  }

  /** The six steps of `Armor`, one after the other, leave `Armored(m)`. */
  lemma ArmorSteps(m: map<string, HeaderValue>)
    ensures (m[DnsPrefetchControlName := "on"][ContentTypeOptionsName := "nosniff"]
              [FrameOptionsName := "sameorigin"] - {PoweredByName})
              [StrictTransportSecurityName := "max-age=5184000"][XssProtectionName := "1; mode=block"]
            == Armored(m)
  {
  }

  /** Applies all protections, in the source's order. */
  method Armor(headers: HeaderMap)
    modifies headers
    ensures headers.entries == Armored(old(headers.entries))
  {
    ArmorSteps(headers.entries);
    DnsPrefetchControl(headers);
    DontSniffMimetype(headers);
    Frameguard(headers, None);
    HidePoweredBy(headers);
    Hsts(headers);
    XssFilter(headers);
  }
}
