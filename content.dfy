/**
  The content script that runs in every page: the allowlist policy and the
  overlay it shows over a blocked page.
 */
module Content {
  import opened Wrappers
  import opened Text
  import opened Storage

  // ---------------------------------------------------------------------------
  // Policy
  // ---------------------------------------------------------------------------

  /**
    `normalizeDomain`: strips one leading `"www."` (case-sensitively) and then
    lowercases. The result has no upper-case letter and differs from the
    lowercased input by at most one leading `"www."`.
   */
  function NormalizeDomain(hostname: String): (r: String)
    ensures NoAsciiUpper(r)
    ensures ToLower(hostname) == r || ToLower(hostname) == WwwPrefix + r
    ensures StartsWith(hostname, WwwPrefix) ==> ToLower(hostname) == WwwPrefix + r
    ensures !StartsWith(hostname, WwwPrefix) ==> ToLower(hostname) == r
  {
    var stripped := StripWww(hostname);
    if StartsWith(hostname, WwwPrefix) then
      ToLowerAppend(WwwPrefix, stripped);
      ToLowerOfLower(WwwPrefix);
      ToLower(stripped)
    else
      ToLower(stripped)
  }

  /** A normalized host is covered by a normalized entry: the same name, or a name ending in `"." + entry`. */
  predicate MatchesEntry(normalized: String, normalizedEntry: String) {
    normalized == normalizedEntry || EndsWith(normalized, "." + normalizedEntry)
  }

  /** `allowedDomains.some(...)`: some entry, once normalized, covers the normalized host. */
  function AnyEntryMatches(normalized: String, allowedDomains: seq<String>): (r: bool)
    ensures r <==> exists e :: e in allowedDomains && MatchesEntry(normalized, NormalizeDomain(e))
  {
    if allowedDomains == [] then false
    else
      assert allowedDomains == [allowedDomains[0]] + allowedDomains[1..];
      MatchesEntry(normalized, NormalizeDomain(allowedDomains[0]))
      || AnyEntryMatches(normalized, allowedDomains[1..])
  }

  /**
    `isDomainAllowed`: the host is allowed exactly when some allowlist entry
    covers it after both are normalized. An empty allowlist allows nothing.
   */
  function IsDomainAllowed(hostname: String, allowedDomains: seq<String>): (r: bool)
    ensures r <==> exists e :: e in allowedDomains && MatchesEntry(NormalizeDomain(hostname), NormalizeDomain(e))
    ensures allowedDomains == [] ==> !r
  {
    AnyEntryMatches(NormalizeDomain(hostname), allowedDomains)
  }

  /** Adding entries, before or after, never withdraws permission. */
  lemma AllowedMonotone(hostname: String, l: seq<String>, m: seq<String>)
    requires IsDomainAllowed(hostname, l)
    ensures IsDomainAllowed(hostname, l + m)
    ensures IsDomainAllowed(hostname, m + l)
  {
    var e :| e in l && MatchesEntry(NormalizeDomain(hostname), NormalizeDomain(e));
    assert e in l + m && e in m + l;
  }

  /** The order, and the multiplicity, of the entries do not matter. */
  lemma AllowedOrderInsensitive(hostname: String, l: seq<String>, m: seq<String>)
    requires multiset(l) == multiset(m)
    ensures IsDomainAllowed(hostname, l) == IsDomainAllowed(hostname, m)
  {
    forall e ensures e in l <==> e in m {
      assert e in l <==> e in multiset(l);
      assert e in m <==> e in multiset(m);
    }
  }

  /** A listed domain is allowed, and so is the same domain with `"www."` put in front. */
  lemma ListedIsAllowed(d: String, l: seq<String>)
    requires d in l
    ensures IsDomainAllowed(d, l)
    ensures IsDomainAllowed(WwwPrefix + d, l)
  {
    var w := WwwPrefix + d;
    assert StartsWith(w, WwwPrefix) && w[|WwwPrefix|..] == d;
    assert NormalizeDomain(w) == ToLower(d);
    assert MatchesEntry(NormalizeDomain(d), NormalizeDomain(d));
    if !(NormalizeDomain(d) == ToLower(d)) {
      assert ToLower(d) == WwwPrefix + NormalizeDomain(d);
      MatchThroughWww(NormalizeDomain(d), NormalizeDomain(d));
    }
    assert MatchesEntry(NormalizeDomain(w), NormalizeDomain(d));
  }

  /**
    The suffix rule respects the label boundary: a host that is an entry with
    something glued on in front, not ending in a dot, is not covered by it.
   */
  lemma NoMatchWithoutDot(p: String, entry: String)
    requires p != [] && p[|p| - 1] != '.'
    ensures !MatchesEntry(p + entry, entry)
  {
    var n := p + entry;
    assert n != entry;
    if |"." + entry| <= |n| {
      assert n[|n| - |entry| - 1..][0] == p[|p| - 1];
      assert n[|n| - |entry| - 1..][0] != ("." + entry)[0];
    }
  }

  /** Widening a match: if `x` is covered, so is `x` itself or anything ending in `"." + x`. */
  lemma MatchWiden(x: String, y: String, normalizedEntry: String)
    requires MatchesEntry(x, normalizedEntry)
    requires y == x || EndsWith(y, "." + x)
    ensures MatchesEntry(y, normalizedEntry)
  {
    if y != x && x != normalizedEntry {
      EndsWithPrepend(".", x, "." + normalizedEntry);
      EndsWithTrans(y, "." + x, "." + normalizedEntry);
    }
  }

  lemma MatchThroughWww(n: String, normalizedEntry: String)
    requires MatchesEntry(n, normalizedEntry)
    ensures MatchesEntry(WwwPrefix + n, normalizedEntry)
  {
    assert WwwPrefix + n == "www" + ("." + n);
    assert EndsWith(WwwPrefix + n, "." + n);
    MatchWiden(n, WwwPrefix + n, normalizedEntry);
  }

  /** Normalizing `p + "." + h` leaves the lowercased `h` at its end, on a label boundary. */
  lemma NormalizeSubdomain(p: String, h: String)
    ensures var n := NormalizeDomain(p + "." + h);
      n == ToLower(h) || EndsWith(n, "." + ToLower(h))
  {
    var s := p + "." + h;
    if !StartsWith(s, WwwPrefix) {
      ToLowerDotJoin(p, h);
      EndsWithAppend(ToLower(p), "." + ToLower(h));
    } else if |p| >= |WwwPrefix| {
      assert s[|WwwPrefix|..] == p[|WwwPrefix|..] + "." + h;
      assert NormalizeDomain(s) == ToLower(p[|WwwPrefix|..] + "." + h) by {
        assert WwwPrefix + (p[|WwwPrefix|..] + "." + h) == s;
      }
      ToLowerDotJoin(p[|WwwPrefix|..], h);
      EndsWithAppend(ToLower(p[|WwwPrefix|..]), "." + ToLower(h));
    } else {
      WwwPrefixOfDotJoin(p, h);
      assert NormalizeDomain(s) == ToLower(h) by {
        assert WwwPrefix + h == s;
      }
    }
  }

  /** The only way `p + "." + h` can start with `"www."` with a short `p` is `p == "www"`. */
  lemma WwwPrefixOfDotJoin(p: String, h: String)
    requires |p| < |WwwPrefix| && StartsWith(p + "." + h, WwwPrefix)
    ensures p + "." + h == WwwPrefix + h
  {
    var s := p + "." + h;
    assert s[..|WwwPrefix|] == WwwPrefix;
    assert s[|p|] == '.';
    assert WwwPrefix[|p|] == s[|p|];
    assert |p| == 3;
    assert p == s[..3] == "www";
  }

  /** Subdomains of an allowed host are allowed. */
  lemma SubdomainOfAllowed(p: String, h: String, l: seq<String>)
    requires IsDomainAllowed(h, l)
    ensures IsDomainAllowed(p + "." + h, l)
  {
    var e :| e in l && MatchesEntry(NormalizeDomain(h), NormalizeDomain(e));
    if ToLower(h) != NormalizeDomain(h) {
      MatchThroughWww(NormalizeDomain(h), NormalizeDomain(e));
    }
    assert MatchesEntry(ToLower(h), NormalizeDomain(e));
    NormalizeSubdomain(p, h);
    MatchWiden(ToLower(h), NormalizeDomain(p + "." + h), NormalizeDomain(e));
  }

  /**
    A host whose `"www."` is written in upper case keeps it: the strip looks
    for the lower-case prefix before lowercasing, so `"WWW.Example.COM"`
    normalizes to `"www.example.com"`.
   */
  lemma UpperWwwIsNotStripped(hostname: String)
    requires !StartsWith(hostname, WwwPrefix) && StartsWith(ToLower(hostname), WwwPrefix)
    ensures NormalizeDomain(hostname) == ToLower(hostname)
    ensures StartsWith(NormalizeDomain(hostname), WwwPrefix)
  {
  }

  /** For such a host, normalizing twice differs from normalizing once. */
  lemma NormalizeNotIdempotent(hostname: String)
    requires !StartsWith(hostname, WwwPrefix) && StartsWith(ToLower(hostname), WwwPrefix)
    ensures NormalizeDomain(NormalizeDomain(hostname)) != NormalizeDomain(hostname)
  {
    var n := NormalizeDomain(hostname);
    UpperWwwIsNotStripped(hostname);
    ToLowerOfLower(n);
    assert |NormalizeDomain(n)| + |WwwPrefix| == |n|;
  }

  /** With a single entry, the check is one match. */
  lemma AllowedSingleton(hostname: String, entry: String)
    ensures IsDomainAllowed(hostname, [entry]) <==> MatchesEntry(NormalizeDomain(hostname), NormalizeDomain(entry))
  {
    assert forall e :: e in [entry] <==> e == entry;
  }

  /** A lower-case name that does not start with `"www."` is its own normalization. */
  lemma NormalizePlain(s: String)
    requires NoAsciiUpper(s) && !StartsWith(s, WwwPrefix)
    ensures NormalizeDomain(s) == s
  {
    ToLowerOfLower(s);
  }

  /**
    A name that merely ends with an entry, without a dot in front of it, is
    not covered: `"notexample.com"` is blocked under `["example.com"]`.
   */
  lemma GluedNameIsBlocked(p: String, entry: String)
    requires p != [] && p[|p| - 1] != '.'
    requires NoAsciiUpper(p + entry) && !StartsWith(p + entry, WwwPrefix)
    requires NoAsciiUpper(entry) && !StartsWith(entry, WwwPrefix)
    ensures !IsDomainAllowed(p + entry, [entry])
  {
    NormalizePlain(p + entry);
    NormalizePlain(entry);
    AllowedSingleton(p + entry, entry);
    NoMatchWithoutDot(p, entry);
  }

  /**
    A host that lowercases to `"www." + d` is covered by a listed `d`, however
    its `"www."` is written: either the strip removes it, or the subdomain rule
    accepts the `"www."` that normalization keeps.
   */
  lemma WwwHostIsAllowed(hostname: String, d: String, l: seq<String>)
    requires ToLower(hostname) == WwwPrefix + d && d in l
    ensures IsDomainAllowed(hostname, l)
  {
    var n, ne := NormalizeDomain(hostname), NormalizeDomain(d);
    assert NoAsciiUpper(d) by {
      assert forall i :: 0 <= i < |d| ==> d[i] == ToLower(hostname)[i + |WwwPrefix|];
    }
    ToLowerOfLower(d);
    assert MatchesEntry(d, ne) by {
      if ne != d {
        assert d == WwwPrefix + ne;
        MatchThroughWww(ne, ne);
      }
    }
    if n != d {
      assert n == WwwPrefix + d;
      MatchThroughWww(d, ne);
    }
    assert MatchesEntry(n, ne);
  }

  /**
    An entry stored as `"WWW." + d` keeps its `"www."` and so does not cover
    the bare `d`: it is longer than anything `d` normalizes to.
   */
  lemma UpperWwwEntryDoesNotCoverApex(entry: String, d: String)
    requires !StartsWith(entry, WwwPrefix) && ToLower(entry) == WwwPrefix + d
    ensures !IsDomainAllowed(d, [entry])
  {
    AllowedSingleton(d, entry);
    assert |NormalizeDomain(d)| <= |d| < |NormalizeDomain(entry)|;
  }

  /** `"example.com"` is lower case and has no `"www."`. */
  lemma ExampleComIsPlain()
    ensures NoAsciiUpper("example.com") && !StartsWith("example.com", WwwPrefix)
  {
    NotStartsWithAt("example.com", WwwPrefix, 0);
  }

  /** `"notexample.com"` is lower case and has no `"www."`. */
  lemma NotExampleComIsPlain()
    ensures NoAsciiUpper("not" + "example.com") && !StartsWith("not" + "example.com", WwwPrefix)
  {
    NotStartsWithAt("not" + "example.com", WwwPrefix, 0);
  }

  /** `"WWW.Example.COM"` has an upper-case `"WWW."` and lowercases to `"www.example.com"`. */
  lemma UpperWwwExampleComFacts()
    ensures !StartsWith("WWW.Example.COM", WwwPrefix)
    ensures ToLower("WWW.Example.COM") == WwwPrefix + "example.com"
  {
    NotStartsWithAt("WWW.Example.COM", WwwPrefix, 0);
  }

  /** `"notexample.com"` is blocked under `["example.com"]`. */
  lemma NotExampleComIsBlocked()
    ensures !IsDomainAllowed("not" + "example.com", ["example.com"])
  {
    ExampleComIsPlain();
    NotExampleComIsPlain();
    GluedNameIsBlocked("not", "example.com");
  }

  /** `"a.b.example.com"` is allowed under `["example.com"]`. */
  lemma DeepExampleComIsAllowed()
    ensures IsDomainAllowed("a.b" + "." + "example.com", ["example.com"])
  {
    ListedIsAllowed("example.com", ["example.com"]);
    SubdomainOfAllowed("a.b", "example.com", ["example.com"]);
  }

  /** `"WWW.Example.COM"` is allowed under `["example.com"]`. */
  lemma UpperWwwExampleComIsAllowed()
    ensures IsDomainAllowed("WWW.Example.COM", ["example.com"])
  {
    ExampleComIsPlain();
    UpperWwwExampleComFacts();
    WwwHostIsAllowed("WWW.Example.COM", "example.com", ["example.com"]);
  }

  // ---------------------------------------------------------------------------
  // Overlay state
  // ---------------------------------------------------------------------------

  /** `createOverlay(hostname)`: an overlay already on the page is kept as it is. */
  function AfterCreate(overlay: Option<String>, hostname: String): Option<String> {
    if overlay.Some? then overlay else Some(hostname)
  }

  /** The page is blocked under the given (defaulted) state. */
  predicate Blocked(hostname: String, st: State) {
    st.isBlocking && !IsDomainAllowed(hostname, st.allowedDomains)
  }

  /** `checkAndApplyBlock` on the overlay: nothing for an empty host, else show when blocked and remove otherwise. */
  function AfterCheck(overlay: Option<String>, hostname: String, rec: Record): Option<String> {
    if hostname == "" then overlay
    else if Blocked(hostname, ReadState(rec)) then AfterCreate(overlay, hostname)
    else None
  }

  /** The storage listener's filter: only the synced area, and only when one of the two keys changed. */
  predicate ShouldRecheck(areaName: String, changedKeys: set<String>) {
    areaName == SyncArea && (BlockingKey in changedKeys || AllowedKey in changedKeys)
  }

  /** For a page with a host, the overlay is present after a check exactly when the page is blocked. */
  lemma CheckShowsIffBlocked(overlay: Option<String>, hostname: String, rec: Record)
    requires hostname != ""
    ensures AfterCheck(overlay, hostname, rec).Some? <==> Blocked(hostname, ReadState(rec))
    ensures AfterCheck(overlay, hostname, rec).Some? <==>
      (rec.isBlocking == Present(true) && !IsDomainAllowed(hostname, ReadState(rec).allowedDomains))
  {
  }

  /** A missing or `null` flag means not blocking: the check removes any overlay, whatever the list. */
  lemma MissingFlagRemovesOverlay(overlay: Option<String>, hostname: String, rec: Record)
    requires hostname != "" && !rec.isBlocking.Present?
    ensures AfterCheck(overlay, hostname, rec) == None
  {
  }

  /** A missing or `null` list reads as empty: with blocking on, every page with a host is covered. */
  lemma MissingListBlocksAll(overlay: Option<String>, hostname: String, rec: Record)
    requires hostname != "" && !rec.allowedDomains.Present? && rec.isBlocking == Present(true)
    ensures AfterCheck(overlay, hostname, rec).Some?
  {
  }

  /** Checking twice with unchanged inputs is checking once. */
  lemma CheckIdempotent(overlay: Option<String>, hostname: String, rec: Record)
    ensures AfterCheck(AfterCheck(overlay, hostname, rec), hostname, rec) == AfterCheck(overlay, hostname, rec)
  {
  }

  /**
    Adding the page's own host to the list and re-checking always clears the overlay.
   */
  lemma AllowingHostClearsOverlay(overlay: Option<String>, hostname: String, domains: seq<String>, flag: Slot<bool>)
    requires hostname != "" && hostname in domains
    ensures AfterCheck(overlay, hostname, Record(Present(domains), flag)) == None
  {
    ListedIsAllowed(hostname, domains);
  }

  /** The script in one page: its host and the overlay element, if any. */
  class ContentScript {
    /** `window.location.hostname`. */
    const hostname: String
    /** `overlayElement`: `Some(h)` when an overlay naming `h` is on the page. */
    var overlay: Option<String>

    /** Loads into a page and runs the initial check. */
    constructor (hostname: String, store: SyncStore)
      ensures this.hostname == hostname
      ensures overlay == AfterCheck(None, hostname, store.Contents())
    {
      this.hostname := hostname;
      overlay := None;
      new;
      CheckAndApplyBlock(store);
    }

    /** `createOverlay`: does nothing when an overlay is already there. */
    method CreateOverlay(host: String)
      modifies this
      ensures overlay == AfterCreate(old(overlay), host)
      ensures old(overlay).Some? ==> overlay == old(overlay)
      ensures overlay.Some?
    {
      if overlay.Some? {
        return;
      }
      overlay := Some(host);
    }

    /** `removeOverlay`: leaves no overlay, so a second call changes nothing. */
    method RemoveOverlay()
      modifies this
      ensures overlay == None
    {
      if overlay.Some? {
        overlay := None;
      }
    }

    /** `checkAndApplyBlock`: reads the store afresh and shows or removes the overlay. */
    method CheckAndApplyBlock(store: SyncStore)
      modifies this
      ensures overlay == AfterCheck(old(overlay), hostname, store.Contents())
      ensures hostname != "" ==> (overlay.Some? <==> Blocked(hostname, ReadState(store.Contents())))
      ensures hostname == "" ==> overlay == old(overlay)
    {
      if hostname == "" {
        return;
      }
      var data := store.Contents();
      var allowedDomains := OrDefault(data.allowedDomains, []);
      var isBlocking := OrDefault(data.isBlocking, false);
      if isBlocking && !IsDomainAllowed(hostname, allowedDomains) {
        CreateOverlay(hostname);
      } else {
        RemoveOverlay();
      }
    }

    /** The `onChanged` listener: re-checks only for the synced area and the two keys. */
    method OnStorageChanged(changedKeys: set<String>, areaName: String, store: SyncStore)
      modifies this
      ensures ShouldRecheck(areaName, changedKeys) ==> overlay == AfterCheck(old(overlay), hostname, store.Contents())
      ensures !ShouldRecheck(areaName, changedKeys) ==> overlay == old(overlay)
    {
      if areaName == SyncArea {
        if BlockingKey in changedKeys || AllowedKey in changedKeys {
          CheckAndApplyBlock(store);
        }
      }
    }
  }
}
