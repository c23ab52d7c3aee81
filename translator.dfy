/**
  The translation of one Pingdom HTTP check into one Checkly API check
  (`convertCheck` and its helpers in index.js).
 */
module Translator {
  import opened Pingdom
  import opened Checkly
  import Seqs
  import Ascii

  // ---------------------------------------------------------------------
  // Region constants (index.js:6-12), spelled exactly as in the source,
  // including the space in "region: LATAM" and in " eu-central-1".
  // ---------------------------------------------------------------------

  const LatamFilter: string := "region: LATAM"
  const ApacFilter: string := "region:APAC"
  const EuFilter: string := "region:EU"
  const NaFilter: string := "region:NA"

  const DefaultRegions: seq<string> := ["us-east-2", "us-west-1", "ca-central-1", "eu-west-1", "eu-north-1", "eu-west-3"]
  const LatamRegions: seq<string> := ["sa-east-1"]
  const ApacRegions: seq<string> := ["ap-southeast-1", "ap-northeast-1", "ap-east-1", "ap-southeast-2", "ap-northeast-2", "ap-south-1"]
  const NaRegions: seq<string> := ["us-east-1", "us-east-2", "us-west-1", "us-west-2", "ca-central-1"]
  const EuRegions: seq<string> := ["eu-west-1", "eu-west-2", "eu-west-3", " eu-central-1", "eu-north-1", "me-south-1"]

  // ---------------------------------------------------------------------
  // Assertions (createAssertions)
  // ---------------------------------------------------------------------

  const StatusIs200: Assertion := Assertion("STATUS_CODE", "200", "", "EQUALS")

  function BodyContains(text: string): Assertion {
    Assertion("TEXT_BODY", text, "", "CONTAINS")
  }

  function BodyNotContains(text: string): Assertion {
    Assertion("TEXT_BODY", text, "", "NOT_CONTAINS")
  }

  /** The assertions a check with these HTTP settings gets. */
  function AssertionsFor(http: HttpSettings): seq<Assertion> {
    [StatusIs200]
    + (if Truthy(http.shouldContain) then [BodyContains(http.shouldContain.value)] else [])
    + (if Truthy(http.shouldNotContain) then [BodyNotContains(http.shouldNotContain.value)] else [])
  }

  /** Starts from the status assertion and pushes the optional body assertions. */
  method CreateAssertions(http: HttpSettings) returns (assertions: seq<Assertion>)
    ensures assertions == AssertionsFor(http)
  {
    assertions := [StatusIs200];
    if Truthy(http.shouldContain) {
      assertions := assertions + [BodyContains(http.shouldContain.value)];
    }
    if Truthy(http.shouldNotContain) {
      assertions := assertions + [BodyNotContains(http.shouldNotContain.value)];
    }
  }

  /**
    The status-200 assertion always comes first; a body-contains assertion
    follows exactly when `shouldcontain` is truthy, and a body-not-contains
    assertion comes last exactly when `shouldnotcontain` is truthy.
   */
  lemma AssertionsShape(http: HttpSettings)
    ensures var a := AssertionsFor(http);
      && |a| == 1 + (if Truthy(http.shouldContain) then 1 else 0)
                  + (if Truthy(http.shouldNotContain) then 1 else 0)
      && a[0] == StatusIs200
      && (Truthy(http.shouldContain) ==> a[1] == BodyContains(http.shouldContain.value))
      && (Truthy(http.shouldNotContain) ==> a[|a| - 1] == BodyNotContains(http.shouldNotContain.value))
      && (forall t :: BodyContains(t) in a <==> Truthy(http.shouldContain) && t == http.shouldContain.value)
      && (forall t :: BodyNotContains(t) in a <==> Truthy(http.shouldNotContain) && t == http.shouldNotContain.value)
  {
  }

  // ---------------------------------------------------------------------
  // Headers (createHeaders)
  // ---------------------------------------------------------------------

  /** `key.toLowerCase() === 'user-agent'`. */
  predicate IsUserAgent(key: string) {
    Ascii.ToLower(key) == "user-agent"
  }

  /** The request headers that are kept, in order, as key/value records. */
  function KeptHeaders(entries: seq<(string, string)>): (headers: seq<Header>)
    ensures |headers| <= |entries|
    ensures forall k, v :: Header(k, v) in headers <==> (k, v) in entries && !IsUserAgent(k)
  {
    if entries == [] then []
    else
      var init := entries[..|entries| - 1];
      var (key, value) := entries[|entries| - 1];
      assert entries == init + [(key, value)];
      KeptHeaders(init) + (if IsUserAgent(key) then [] else [Header(key, value)])
  }

  /** Walks the entries in order and pushes every one whose key is not User-Agent. */
  method CreateHeaders(requestHeaders: seq<(string, string)>) returns (headers: seq<Header>)
    ensures headers == KeptHeaders(requestHeaders)
  {
    headers := [];
    if |requestHeaders| > 0 {
      for i := 0 to |requestHeaders|
        invariant headers == KeptHeaders(requestHeaders[..i])
      {
        var (key, value) := requestHeaders[i];
        if Ascii.ToLower(key) != "user-agent" {
          headers := headers + [Header(key, value)];
        }
        assert requestHeaders[..i + 1][..i] == requestHeaders[..i];
      }
      assert requestHeaders[..|requestHeaders|] == requestHeaders;
    }
  }

  /** Keeping headers distributes over concatenation, so the relative order of the kept entries is the input's. */
  lemma {:induction false} KeptHeadersAppend(a: seq<(string, string)>, b: seq<(string, string)>)
    ensures KeptHeaders(a + b) == KeptHeaders(a) + KeptHeaders(b)
  {
    if b == [] {
      assert a + b == a;
    } else {
      var b' := b[..|b| - 1];
      assert (a + b)[..|a + b| - 1] == a + b';
      assert (a + b)[|a + b| - 1] == b[|b| - 1];
      KeptHeadersAppend(a, b');
    }
  }

  /** An entry on its own is kept exactly when its key is not User-Agent; key casing and value are preserved. */
  lemma KeptHeadersSingle(key: string, value: string)
    ensures KeptHeaders([(key, value)]) == if IsUserAgent(key) then [] else [Header(key, value)]
  {
    assert [(key, value)][..0] == [];
  }

  /** The User-Agent test ignores case: "User-Agent", "USER-AGENT", "user-agent" and every other mix match. */
  lemma UserAgentIgnoresCase(key: string)
    ensures IsUserAgent(key) <==>
      |key| == 10 && forall i :: 0 <= i < 10 ==> key[i] == "user-agent"[i] || key[i] == Ascii.UpperChar("user-agent"[i])
  {
    var t := "user-agent";
    assert forall i :: 0 <= i < |t| ==> Ascii.LowerChar(t[i]) == t[i];
    Ascii.ToLowerEqualsIff(key, t);
  }

  // ---------------------------------------------------------------------
  // Locations (createLocations)
  // ---------------------------------------------------------------------

  /** The region list for a check's probe filters: the first recognised filter wins. */
  function CreateLocations(probeFilters: seq<string>): (locations: seq<string>)
    ensures locations in [LatamRegions, ApacRegions, EuRegions, NaRegions, DefaultRegions]
  {
    if LatamFilter in probeFilters then LatamRegions
    else if ApacFilter in probeFilters then ApacRegions
    else if EuFilter in probeFilters then EuRegions
    else if NaFilter in probeFilters then NaRegions
    else DefaultRegions
  }

  /** The filter-to-regions table, in priority order. */
  const RegionTable: seq<(string, seq<string>)> :=
    [(LatamFilter, LatamRegions), (ApacFilter, ApacRegions), (EuFilter, EuRegions), (NaFilter, NaRegions)]

  /** A first-match lookup in a priority table, with a fallback when nothing matches. */
  function FirstMatch(table: seq<(string, seq<string>)>, filters: seq<string>, fallback: seq<string>): seq<string> {
    if table == [] then fallback
    else if table[0].0 in filters then table[0].1
    else FirstMatch(table[1..], filters, fallback)
  }

  /** The lookup returns the entry of the earliest row whose filter is present. */
  lemma {:induction false} FirstMatchEarliest(table: seq<(string, seq<string>)>, filters: seq<string>, fallback: seq<string>, i: nat)
    requires i < |table| && table[i].0 in filters
    requires forall j :: 0 <= j < i ==> table[j].0 !in filters
    ensures FirstMatch(table, filters, fallback) == table[i].1
  {
    if i > 0 {
      FirstMatchEarliest(table[1..], filters, fallback, i - 1);
    }
  }

  /** The lookup falls back exactly when no row's filter is present. */
  lemma {:induction false} FirstMatchNone(table: seq<(string, seq<string>)>, filters: seq<string>, fallback: seq<string>)
    requires forall j :: 0 <= j < |table| ==> table[j].0 !in filters
    ensures FirstMatch(table, filters, fallback) == fallback
  {
    if table != [] {
      FirstMatchNone(table[1..], filters, fallback);
    }
  }

  /** The if-cascade is the first-match lookup in the priority table, defaulting to the default list. */
  lemma CreateLocationsIsFirstMatch(probeFilters: seq<string>)
    ensures CreateLocations(probeFilters) == FirstMatch(RegionTable, probeFilters, DefaultRegions)
  {
    var t := RegionTable;
    if LatamFilter in probeFilters {
      FirstMatchEarliest(t, probeFilters, DefaultRegions, 0);
    } else if ApacFilter in probeFilters {
      FirstMatchEarliest(t, probeFilters, DefaultRegions, 1);
    } else if EuFilter in probeFilters {
      FirstMatchEarliest(t, probeFilters, DefaultRegions, 2);
    } else if NaFilter in probeFilters {
      FirstMatchEarliest(t, probeFilters, DefaultRegions, 3);
    } else {
      FirstMatchNone(t, probeFilters, DefaultRegions);
    }
  }

  /**
    Each region list is chosen exactly when its filter is an element of the
    probe filters and no filter of higher priority is; the default list
    exactly when none of the four is.
   */
  lemma LocationsPriority(probeFilters: seq<string>)
    ensures CreateLocations(probeFilters) == LatamRegions <==> LatamFilter in probeFilters
    ensures CreateLocations(probeFilters) == ApacRegions <==>
      LatamFilter !in probeFilters && ApacFilter in probeFilters
    ensures CreateLocations(probeFilters) == EuRegions <==>
      LatamFilter !in probeFilters && ApacFilter !in probeFilters && EuFilter in probeFilters
    ensures CreateLocations(probeFilters) == NaRegions <==>
      LatamFilter !in probeFilters && ApacFilter !in probeFilters && EuFilter !in probeFilters && NaFilter in probeFilters
    ensures CreateLocations(probeFilters) == DefaultRegions <==>
      LatamFilter !in probeFilters && ApacFilter !in probeFilters && EuFilter !in probeFilters && NaFilter !in probeFilters
  {
    assert LatamRegions[0] != ApacRegions[0] && LatamRegions[0] != EuRegions[0];
    assert LatamRegions[0] != NaRegions[0] && LatamRegions[0] != DefaultRegions[0];
    assert ApacRegions[0] != EuRegions[0] && ApacRegions[0] != NaRegions[0] && ApacRegions[0] != DefaultRegions[0];
    assert EuRegions[0] != NaRegions[0] && EuRegions[0] != DefaultRegions[0];
    assert NaRegions[0] != DefaultRegions[0];
  }

  /** Filters are compared as whole elements: a filter that only contains a key, or spells it without the space, does not match. */
  lemma LocationsMatchWholeElements()
    ensures CreateLocations(["region:LATAM"]) == DefaultRegions
    ensures CreateLocations(["region:EU,region:NA"]) == DefaultRegions
    ensures CreateLocations(["region:EU", "region: LATAM"]) == LatamRegions
  {
    assert "region:LATAM" != LatamFilter by { assert "region:LATAM"[7] != LatamFilter[7]; }
    assert "region:EU,region:NA" != LatamFilter by { assert "region:EU,region:NA"[7] != LatamFilter[7]; }
    assert "region:EU,region:NA" != ApacFilter by { assert "region:EU,region:NA"[7] != ApacFilter[7]; }
    assert "region:EU,region:NA" != EuFilter by { assert |"region:EU,region:NA"| != |EuFilter|; }
    assert "region:EU,region:NA" != NaFilter by { assert |"region:EU,region:NA"| != |NaFilter|; }
    assert "region:LATAM" != ApacFilter by { assert "region:LATAM"[7] != ApacFilter[7]; }
    assert "region:LATAM" != EuFilter by { assert |"region:LATAM"| != |EuFilter|; }
    assert "region:LATAM" != NaFilter by { assert |"region:LATAM"| != |NaFilter|; }
  }

  // ---------------------------------------------------------------------
  // Tags (createTags)
  // ---------------------------------------------------------------------

  /** The name of every tag, in order. */
  function CreateTags(tags: seq<Tag>): (names: seq<string>)
    ensures |names| == |tags|
    ensures forall i :: 0 <= i < |tags| ==> names[i] == tags[i].name
  {
    Seqs.Map((t: Tag) => t.name, tags)
  }

  // ---------------------------------------------------------------------
  // The whole check (convertCheck)
  // ---------------------------------------------------------------------

  /** The protocol is chosen by the port alone. */
  function Protocol(port: int): string {
    if port == 443 then "https" else "http"
  }

  /** The Checkly check a Pingdom HTTP check becomes. */
  function Conversion(check: PingdomCheck): ChecklyCheck
    requires check.http.Some?
  {
    var http := check.http.value;
    var request := Request(
      Protocol(http.port) + "://" + check.hostname + http.url,
      "GET",
      AssertionsFor(http),
      KeptHeaders(http.requestHeaders));
    ChecklyCheck(
      check.name, "API", check.resolution, true, request,
      CreateLocations(check.probeFilters),
      CreateTags(check.tags) + ["pingdom"])
  }

  /** Builds the request, fills in its assertions and headers, and appends the "pingdom" tag. */
  method ConvertCheck(check: PingdomCheck) returns (checklyCheck: ChecklyCheck)
    requires check.http.Some?
    ensures checklyCheck == Conversion(check)
  {
    var http := check.http.value;
    var protocol := if http.port == 443 then "https" else "http";
    var request := Request(protocol + "://" + check.hostname + http.url, "GET", [], []);
    var assertions := CreateAssertions(http);
    request := request.(assertions := assertions);
    var headers := CreateHeaders(http.requestHeaders);
    request := request.(headers := headers);
    var locations := CreateLocations(check.probeFilters);
    var tags := CreateTags(check.tags);
    tags := tags + ["pingdom"];
    checklyCheck := ChecklyCheck(check.name, "API", check.resolution, true, request, locations, tags);
  }

  /** The fields that do not depend on the input, and the two that are copied. */
  lemma ConversionFixedFields(check: PingdomCheck)
    requires check.http.Some?
    ensures var r := Conversion(check);
      && r.name == check.name
      && r.checkType == "API"
      && r.frequency == check.resolution
      && r.activated
      && r.request.requestMethod == "GET"
  {
  }

  /**
    The URL is "https://" exactly when the port is 443 and "http://"
    otherwise, followed by the top-level hostname and the path.
   */
  lemma ConversionUrl(check: PingdomCheck)
    requires check.http.Some?
    ensures var url := Conversion(check).request.url;
      var rest := check.hostname + check.http.value.url;
      && (check.http.value.port == 443 ==> url == "https://" + rest)
      && (check.http.value.port != 443 ==> url == "http://" + rest)
      && ("https://" <= url <==> check.http.value.port == 443)
  {
    var url := Conversion(check).request.url;
    var rest := check.hostname + check.http.value.url;
    if check.http.value.port != 443 {
      assert url == "http://" + rest;
      assert url[4] == ':';
    }
  }

  /** The port never reaches the URL: two checks that differ only in ports on the same side of 443 get the same URL. */
  lemma UrlIgnoresPortValue(check: PingdomCheck, port: int)
    requires check.http.Some?
    requires (port == 443) == (check.http.value.port == 443)
    ensures Conversion(check.(http := Some(check.http.value.(port := port)))).request.url == Conversion(check).request.url
  {
  }

  /** The tags are the source tag names in order followed by "pingdom". */
  lemma ConversionTags(check: PingdomCheck)
    requires check.http.Some?
    ensures var tags := Conversion(check).tags;
      && |tags| == |check.tags| + 1
      && tags[|tags| - 1] == "pingdom"
      && forall i :: 0 <= i < |check.tags| ==> tags[i] == check.tags[i].name
  {
  }

  /** The request's assertions and headers and the check's locations are those of the helpers. */
  lemma ConversionParts(check: PingdomCheck)
    requires check.http.Some?
    ensures var r := Conversion(check);
      && r.request.assertions[0] == StatusIs200
      && |r.request.assertions| <= 3
      && (forall h :: h in r.request.headers ==> !IsUserAgent(h.key))
      && (check.http.value.requestHeaders == [] ==> r.request.headers == [])
      && r.locations in [LatamRegions, ApacRegions, EuRegions, NaRegions, DefaultRegions]
  {
    AssertionsShape(check.http.value);
  }

  /** A Homepage check over HTTPS with a body assertion, no headers, the EU filter and one tag. */
  lemma HomepageScenario()
    ensures
      var source := PingdomCheck(
        1, "Homepage", "up", "example.com", 5, ["region:EU"], [Tag("web")],
        Some(HttpSettings(443, "/", Some("OK"), None, [])));
      Conversion(source) == ChecklyCheck(
        "Homepage", "API", 5, true,
        Request(
          "https://example.com/", "GET",
          [Assertion("STATUS_CODE", "200", "", "EQUALS"), Assertion("TEXT_BODY", "OK", "", "CONTAINS")],
          []),
        ["eu-west-1", "eu-west-2", "eu-west-3", " eu-central-1", "eu-north-1", "me-south-1"],
        ["web", "pingdom"])
  {
    var filters := ["region:EU"];
    assert LatamFilter !in filters by { assert filters[0][7] != LatamFilter[7]; }
    assert ApacFilter !in filters by { assert |filters[0]| != |ApacFilter|; }
    assert CreateLocations(filters) == EuRegions;
    var tags := CreateTags([Tag("web")]);
    assert tags == ["web"];
  }

  /** A User-Agent header is dropped and the others are kept with their casing. */
  lemma HeadersScenario()
    ensures KeptHeaders([("User-Agent", "x"), ("X-Foo", "bar")]) == [Header("X-Foo", "bar")]
  {
    var entries := [("User-Agent", "x"), ("X-Foo", "bar")];
    assert entries == [entries[0]] + [entries[1]];
    KeptHeadersAppend([entries[0]], [entries[1]]);
    KeptHeadersSingle("User-Agent", "x");
    KeptHeadersSingle("X-Foo", "bar");
    UserAgentIgnoresCase("User-Agent");
    assert !IsUserAgent("X-Foo") by { assert |Ascii.ToLower("X-Foo")| == 5; }
  }
}
