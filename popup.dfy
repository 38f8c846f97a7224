/**
  The settings popup: validates and normalizes what the user types, and edits
  the stored allowlist and blocking flag by read-modify-write.
 */
module Popup {
  import opened Wrappers
  import opened Text
  import opened Lists
  import opened Storage
  import Content

  const InvalidDomainMessage: String := "Enter a valid domain (example: wikipedia.org)"
  const DuplicateDomainMessage: String := "Domain already in the list."
  const NoTabSelectedMessage: String := "Select at least one tab to add."

  /**
    `new URL(url).hostname`, supplied by the browser: `Some(host)` is the
    parsed host name and `None` means the constructor threw.
   */
  type UrlParser = String -> Option<String>

  // ---------------------------------------------------------------------------
  // Normalization of user input
  // ---------------------------------------------------------------------------

  /** The URL handed to the parser: the text itself when it contains `"//"`, else with `"https://"` in front. */
  function UrlFor(trimmed: String): (url: String)
    ensures Includes(url, "//")
    ensures Includes(trimmed, "//") ==> url == trimmed
    ensures !Includes(trimmed, "//") ==> url == "https://" + trimmed
  {
    if Includes(trimmed, "//") then trimmed
    else
      IncludesAt("https://" + trimmed, "//", 6);
      "https://" + trimmed
  }

  /** What `normalizeDomain(value)` passes to the parser: the trimmed, lowercased text, made into a URL. */
  function ParserInput(value: String): String {
    UrlFor(ToLower(Trim(value)))
  }

  /**
    `normalizeDomain`: `""` for empty or blank input and when the parser
    throws; otherwise the parsed host with one leading `"www."` removed.
   */
  function NormalizeDomain(value: String, parse: UrlParser): (r: String)
    ensures Trim(value) == [] ==> r == ""
    ensures Trim(value) != [] && parse(ParserInput(value)).None? ==> r == ""
    ensures Trim(value) != [] && parse(ParserInput(value)).Some? ==>
      var host := parse(ParserInput(value)).value;
      r == StripWww(host) && (host == r || host == WwwPrefix + r)
  {
    if value == "" then ""
    else
      var trimmed := ToLower(Trim(value));
      if trimmed == "" then ""
      else
        match parse(UrlFor(trimmed))
        case None => ""
        case Some(host) => StripWww(host)
  }

  /** Blank input, of any of the whitespace `trim` removes, normalizes to `""` without consulting the parser. */
  lemma BlankInputIsRejected(value: String, parse: UrlParser)
    requires forall k :: 0 <= k < |value| ==> IsJsWhitespace(value[k])
    ensures NormalizeDomain(value, parse) == ""
  {
    TrimEmptyIff(value);
  }

  /**
    The parser only ever sees trimmed, lower-case text that contains `"//"`,
    and `"https://"` is added exactly when the text lacked `"//"`.
   */
  lemma ParserInputIsClean(value: String)
    ensures NoAsciiUpper(ParserInput(value))
    ensures Includes(ParserInput(value), "//")
    ensures var t := ToLower(Trim(value));
      ParserInput(value) == (if Includes(t, "//") then t else "https://" + t)
  {
    var t := ToLower(Trim(value));
    if !Includes(t, "//") {
      assert NoAsciiUpper("https://");
      NoAsciiUpperAppend("https://", t);
    }
  }

  /** A parser that throws on an input makes that input normalize to `""`. */
  lemma ParseFailureIsRejected(value: String, parse: UrlParser)
    requires parse(ParserInput(value)) == None
    ensures NormalizeDomain(value, parse) == ""
  {
  }

  /**
    Input that trims and lowercases to `"www." + d` normalizes to `d`, given a
    parser that returns the host of `"https://www." + d` unchanged.
   */
  lemma WwwInputNormalizes(value: String, d: String, parse: UrlParser)
    requires ToLower(Trim(value)) == WwwPrefix + d
    requires forall k :: 0 <= k < |d| ==> d[k] != '/'
    requires parse("https://" + (WwwPrefix + d)) == Some(WwwPrefix + d)
    ensures NormalizeDomain(value, parse) == d
  {
    var t := WwwPrefix + d;
    assert forall k :: 0 <= k < |t| ==> t[k] != '/' by {
      assert forall k :: 0 <= k < |t| ==> t[k] == (if k < 4 then WwwPrefix[k] else d[k - 4]);
    }
    NoDoubleSlash(t);
    assert ParserInput(value) == "https://" + t;
    assert StartsWith(t, WwwPrefix) && t[|WwwPrefix|..] == d;
  }

  /** A text with no `'/'` does not include `"//"`. */
  lemma {:induction false} NoDoubleSlash(s: String)
    requires forall k :: 0 <= k < |s| ==> s[k] != '/'
    ensures !Includes(s, "//")
  {
    if |s| >= 2 {
      assert s[..2][0] != '/';
    }
    if s != [] {
      NoDoubleSlash(s[1..]);
    }
  }

  // ---------------------------------------------------------------------------
  // The list computations of the three editing handlers
  // ---------------------------------------------------------------------------

  /** A stored list the way the popup keeps it: sorted and free of duplicates. */
  predicate WellFormed(domains: seq<String>) {
    Sorted(domains) && NoDuplicates(domains)
  }

  /** `[...allowedDomains, domain].sort()`. */
  function WithAdded(domains: seq<String>, d: String): seq<String> {
    SortStrings(domains + [d])
  }

  /** `Array.from(new Set([...allowedDomains, ...selected])).sort()`, with `selected` deduplicated first. */
  function WithMerged(domains: seq<String>, checked: seq<String>): seq<String> {
    SortStrings(Dedup(domains + Dedup(checked)))
  }

  /**
    Adding a new domain stores a sorted permutation of the old list plus the
    domain, which then occurs exactly once; a well-formed list stays well-formed.
   */
  lemma AddedListSpec(domains: seq<String>, d: String)
    requires d !in domains
    ensures Sorted(WithAdded(domains, d))
    ensures multiset(WithAdded(domains, d)) == multiset(domains) + multiset{d}
    ensures multiset(WithAdded(domains, d))[d] == 1
    ensures NoDuplicates(domains) ==> NoDuplicates(WithAdded(domains, d))
  {
    var r := WithAdded(domains, d);
    assert multiset(domains)[d] == 0;
    if NoDuplicates(domains) {
      DistinctIffCounts(domains);
      DistinctIffCounts(r);
    }
  }

  /** Adding the same domain again is rejected, because it is now listed. */
  lemma AddedIsListed(domains: seq<String>, d: String)
    ensures d in WithAdded(domains, d)
  {
    assert d in multiset(WithAdded(domains, d));
  }

  /**
    Removing drops every copy of the domain and keeps the other elements in
    their order; a domain that is not listed leaves the list as it was.
   */
  lemma RemovedListSpec(domains: seq<String>, d: String)
    ensures d !in Without(domains, d)
    ensures forall y :: y != d ==> multiset(Without(domains, d))[y] == multiset(domains)[y]
    ensures forall a, b :: domains == a + b ==> Without(domains, d) == Without(a, d) + Without(b, d)
    ensures d !in domains ==> Without(domains, d) == domains
    ensures WellFormed(domains) ==> WellFormed(Without(domains, d))
  {
    forall a, b | domains == a + b ensures Without(domains, d) == Without(a, d) + Without(b, d) {
      WithoutAppend(a, b, d);
    }
    if d !in domains { WithoutAbsent(domains, d); }
    if WellFormed(domains) {
      WithoutKeepsSorted(domains, d);
      WithoutKeepsDistinct(domains, d);
    }
  }

  /**
    Merging the selected tabs stores a sorted, duplicate-free list whose
    elements are exactly those of the old list and of the selection.
   */
  lemma MergedListSpec(domains: seq<String>, checked: seq<String>)
    ensures WellFormed(WithMerged(domains, checked))
    ensures forall y :: y in WithMerged(domains, checked) <==> y in domains || y in checked
  {
    SortKeepsElements(Dedup(domains + Dedup(checked)));
  }

  /** The merge depends only on which elements the two lists hold: order and repeats do not matter. */
  lemma MergedDependsOnElements(d1: seq<String>, c1: seq<String>, d2: seq<String>, c2: seq<String>)
    requires forall y :: (y in d1 || y in c1) <==> (y in d2 || y in c2)
    ensures WithMerged(d1, c1) == WithMerged(d2, c2)
  {
    MergedListSpec(d1, c1);
    MergedListSpec(d2, c2);
    SortedDistinctUnique(WithMerged(d1, c1), WithMerged(d2, c2));
  }

  /** Merging the same selection twice is merging it once. */
  lemma MergedIdempotent(domains: seq<String>, checked: seq<String>)
    ensures WithMerged(WithMerged(domains, checked), checked) == WithMerged(domains, checked)
  {
    MergedListSpec(domains, checked);
    MergedListSpec(WithMerged(domains, checked), checked);
    MergedDependsOnElements(WithMerged(domains, checked), checked, domains, checked);
  }

  /** Merging into a well-formed list that already holds every selected domain changes nothing. */
  lemma MergedOfListedIsUnchanged(domains: seq<String>, checked: seq<String>)
    requires WellFormed(domains)
    requires forall y :: y in checked ==> y in domains
    ensures WithMerged(domains, checked) == domains
  {
    MergedListSpec(domains, checked);
    SortedDistinctUnique(WithMerged(domains, checked), domains);
  }

  /**
    An entry the popup has stored is allowed by the content script's policy,
    with or without a `"www."` in front.
   */
  lemma AddedDomainIsAllowed(domains: seq<String>, d: String)
    ensures Content.IsDomainAllowed(d, WithAdded(domains, d))
    ensures Content.IsDomainAllowed(WwwPrefix + d, WithAdded(domains, d))
  {
    AddedIsListed(domains, d);
    Content.ListedIsAllowed(d, WithAdded(domains, d));
  }

  // ---------------------------------------------------------------------------
  // Tabs offered for adding
  // ---------------------------------------------------------------------------

  /** A browser tab, as far as the popup looks: its URL, if it has one. */
  datatype Tab = Tab(url: Option<String>)

  /** `tab.url && tab.url.startsWith("http")`. */
  predicate IsWebTab(t: Tab) {
    t.url.Some? && StartsWith(t.url.value, "http")
  }

  /** The tabs `loadTabs` lists. */
  function WebTabs(tabs: seq<Tab>): (r: seq<Tab>)
    ensures forall t :: t in r <==> t in tabs && IsWebTab(t)
  {
    if tabs == [] then []
    else
      assert tabs == [tabs[0]] + tabs[1..];
      (if IsWebTab(tabs[0]) then [tabs[0]] else []) + WebTabs(tabs[1..])
  }

  /** Filtering distributes over concatenation, so the web tabs keep their order and multiplicity. */
  lemma {:induction false} WebTabsAppend(a: seq<Tab>, b: seq<Tab>)
    ensures WebTabs(a + b) == WebTabs(a) + WebTabs(b)
  {
    if a != [] {
      assert (a + b)[1..] == a[1..] + b;
      assert (a + b)[0] == a[0];
      WebTabsAppend(a[1..], b);
    } else {
      assert a + b == b;
    }
  }

  /**
    The checkbox values `loadTabs` offers for the given web tabs, in order: the
    normalized domain of each, skipping those that normalize to `""`.
   */
  function Choices(webTabs: seq<Tab>, parse: UrlParser): (r: seq<String>)
    ensures forall c :: c in r ==> c != ""
    ensures |r| <= |webTabs|
  {
    if webTabs == [] then []
    else
      var init := webTabs[..|webTabs| - 1];
      Choices(init, parse) + TabChoice(webTabs[|webTabs| - 1], parse)
  }

  /** The checkbox one tab contributes: none when it has no URL or its URL normalizes to `""`. */
  function TabChoice(t: Tab, parse: UrlParser): (r: seq<String>)
    ensures |r| <= 1 && forall c :: c in r ==> c != ""
  {
    match t.url
    case None => []
    case Some(u) =>
      var d := NormalizeDomain(u, parse);
      if d == "" then [] else [d]
  }

  /**
    A checkbox is offered for `c` exactly when some listed tab contributes it,
    that is, when some tab's URL normalizes to `c` and `c` is not `""`.
   */
  lemma {:induction false} ChoicesFromTabs(webTabs: seq<Tab>, parse: UrlParser, c: String)
    ensures c in Choices(webTabs, parse) <==> exists t :: t in webTabs && c in TabChoice(t, parse)
  {
    if webTabs != [] {
      var init := webTabs[..|webTabs| - 1];
      var last := webTabs[|webTabs| - 1];
      assert webTabs == init + [last];
      ChoicesFromTabs(init, parse, c);
      assert forall t :: t in webTabs <==> t in init || t == last;
    }
  }

  /** The checkboxes for two runs of tabs are those of the first run followed by those of the second. */
  lemma {:induction false} ChoicesAppend(a: seq<Tab>, b: seq<Tab>, parse: UrlParser)
    ensures Choices(a + b, parse) == Choices(a, parse) + Choices(b, parse)
  {
    if b != [] {
      var init := b[..|b| - 1];
      assert (a + b)[..|a + b| - 1] == a + init;
      assert (a + b)[|a + b| - 1] == b[|b| - 1];
      ChoicesAppend(a, init, parse);
    } else {
      assert a + b == a;
    }
  }

  /** Taking one more tab appends that tab's checkbox, if any. */
  lemma ChoicesStep(webTabs: seq<Tab>, i: nat, parse: UrlParser)
    requires i < |webTabs|
    ensures Choices(webTabs[..i + 1], parse) == Choices(webTabs[..i], parse) + TabChoice(webTabs[i], parse)
  {
    assert webTabs[..i + 1][..i] == webTabs[..i];
  }

  /**
    The `forEach` of `loadTabs`: walks the web tabs in order and appends the
    normalized domain of each one whose URL does not normalize to `""`.
   */
  method CollectChoices(webTabs: seq<Tab>, parse: UrlParser) returns (offered: seq<String>)
    ensures offered == Choices(webTabs, parse)
  {
    offered := [];
    for i := 0 to |webTabs|
      invariant offered == Choices(webTabs[..i], parse)
    {
      ChoicesStep(webTabs, i, parse);
      var domain := match webTabs[i].url case None => "" case Some(u) => NormalizeDomain(u, parse);
      if domain != "" {
        offered := offered + [domain];
      }
    }
    assert webTabs[..|webTabs|] == webTabs;
  }

  // ---------------------------------------------------------------------------
  // The popup
  // ---------------------------------------------------------------------------

  /** The popup's state: the store it edits, the URL parser, and the inputs it reads and writes. */
  class Popup {
    const store: SyncStore
    const parse: UrlParser
    /** The text field `domainInput`. */
    var domainInput: String
    /** The text of `domainError`. */
    var domainError: String
    /** The checkbox values in `tabList`. */
    var tabChoices: seq<String>
    /** Whether the "add tabs" button is enabled. */
    var addTabsEnabled: bool

    constructor (store: SyncStore, parse: UrlParser)
      ensures this.store == store && this.parse == parse
      ensures domainInput == "" && domainError == "" && tabChoices == [] && !addTabsEnabled
    {
      this.store := store;
      this.parse := parse;
      domainInput := "";
      domainError := "";
      tabChoices := [];
      addTabsEnabled := false;
    }

    /** `getStoredState`: reads both keys and applies the defaults. */
    method GetStoredState() returns (st: State)
      ensures st == ReadState(store.Contents())
    {
      var data := store.Contents();
      st := State(OrDefault(data.allowedDomains, []), OrDefault(data.isBlocking, false));
    }

    /**
      `addDomain`: rejects input that normalizes to `""` and a domain already
      listed, leaving the store alone; otherwise stores the sorted list with
      the domain added and clears the input and the message.
     */
    method AddDomain()
      modifies this, store
      ensures store.isBlocking == old(store.isBlocking)
      ensures tabChoices == old(tabChoices) && addTabsEnabled == old(addTabsEnabled)
      ensures var d := NormalizeDomain(old(domainInput), parse);
        var before := ReadState(old(store.Contents())).allowedDomains;
        if d == "" then
          domainError == InvalidDomainMessage && domainInput == old(domainInput)
          && store.allowedDomains == old(store.allowedDomains)
        else if d in before then
          domainError == DuplicateDomainMessage && domainInput == old(domainInput)
          && store.allowedDomains == old(store.allowedDomains)
        else
          domainError == "" && domainInput == ""
          && store.allowedDomains == Present(WithAdded(before, d))
    {
      var domain := NormalizeDomain(domainInput, parse);
      if domain == "" {
        domainError := InvalidDomainMessage;
        return;
      }
      var st := GetStoredState();
      if domain in st.allowedDomains {
        domainError := DuplicateDomainMessage;
        return;
      }
      var updated := SortStrings(st.allowedDomains + [domain]);
      store.SetAllowed(updated);
      domainInput := "";
      domainError := "";
    }

    /** `removeDomain`: stores the list with every copy of `domain` filtered out. */
    method RemoveDomain(domain: String)
      modifies store
      ensures store.isBlocking == old(store.isBlocking)
      ensures store.allowedDomains == Present(Without(ReadState(old(store.Contents())).allowedDomains, domain))
    {
      var st := GetStoredState();
      var updated := Without(st.allowedDomains, domain);
      store.SetAllowed(updated);
    }

    /**
      `loadTabs`: offers one checkbox per web tab whose URL normalizes to a
      domain; the button is enabled when there is any web tab at all.
     */
    method LoadTabs(tabs: seq<Tab>)
      modifies this
      ensures tabChoices == Choices(WebTabs(tabs), parse)
      ensures addTabsEnabled <==> WebTabs(tabs) != []
      ensures domainInput == old(domainInput) && domainError == old(domainError)
    {
      var filtered := WebTabs(tabs);
      var offered := CollectChoices(filtered, parse);
      tabChoices := offered;
      addTabsEnabled := filtered != [];
    }

    /**
      `addSelectedTabs`: with nothing checked, only reports it; otherwise stores
      the sorted, deduplicated union of the list and the checked domains.
     */
    method AddSelectedTabs(checked: seq<String>)
      modifies this, store
      ensures store.isBlocking == old(store.isBlocking)
      ensures domainInput == old(domainInput) && tabChoices == old(tabChoices)
      ensures addTabsEnabled == old(addTabsEnabled)
      ensures checked == [] ==> domainError == NoTabSelectedMessage && store.allowedDomains == old(store.allowedDomains)
      ensures checked != [] ==>
        (domainError == "" &&
         store.allowedDomains == Present(WithMerged(ReadState(old(store.Contents())).allowedDomains, checked)))
    {
      var selected := Dedup(checked);
      if |selected| == 0 {
        domainError := NoTabSelectedMessage;
        return;
      }
      var st := GetStoredState();
      var updated := SortStrings(Dedup(st.allowedDomains + selected));
      store.SetAllowed(updated);
      domainError := "";
    }

    /** `updateBlockingState`: stores exactly the given flag and leaves the list alone. */
    method UpdateBlockingState(isBlocking: bool)
      modifies store
      ensures store.isBlocking == Present(isBlocking)
      ensures store.allowedDomains == old(store.allowedDomains)
    {
      store.SetBlocking(isBlocking);
    }
  }
}
