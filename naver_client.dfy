/** The local-search client (backend/app/core/naver_client.py): it asks the
    search service for places matching a query and normalises each returned
    item into a place record. The HTTP exchange is a parameter: `service`
    gives the outcome of each request by its call number, so that the
    randomly sorted service may answer the same request differently each
    time it is asked. */
module NaverClient {
  import opened Wrappers
  import opened Text

  /** The two credentials read from the settings; `None` and "" are both
      falsy in Python. */
  datatype Credentials = Credentials(clientId: Option<string>, clientSecret: Option<string>)

  predicate Present(v: Option<string>) {
    v.Some? && v.value != ""
  }

  /** The one GET request the client sends, with its headers and parameters. */
  datatype SearchRequest = SearchRequest(clientId: string, clientSecret: string,
                                         query: string, display: int, sort: string)

  /** A key of a JSON object as Python sees it after `response.json()`:
      absent, present with `null`, or present with a value. */
  datatype Field<T> = Missing | Null | Given(value: T)

  /** `obj.get(key, default)`: the default for an absent key, `None` for a
      `null`, the value otherwise. */
  function Get<T>(f: Field<T>, default: T): Option<T> {
    match f
    case Missing => Some(default)
    case Null => None
    case Given(v) => Some(v)
  }

  /** A field whose Python value is truthy: a non-empty text. */
  predicate Filled(f: Field<string>) {
    f.Given? && f.value != ""
  }

  /** One element of the response's `items`. */
  datatype Item = Item(title: Field<string>, category: Field<string>,
                       roadAddress: Field<string>, address: Field<string>,
                       link: Field<string>, mapx: Field<string>, mapy: Field<string>)

  datatype SearchBody = SearchBody(total: Field<int>, items: Field<seq<Item>>)

  /** `Failed` stands for every way the exchange can raise: a connection
      error, the five-second timeout, a non-2xx status, a body that is not JSON. */
  datatype HttpOutcome = Failed | Received(body: SearchBody)

  /** A normalised result, the dictionary the client appends; `None` is a
      Python `None` taken over from a JSON `null`. `lat` and `lng` are exact
      reals; the float rounding of Python's `/` is not modelled. */
  datatype Place = Place(name: string, category: Option<string>, address: Option<string>,
                         lat: real, lng: real, link: Option<string>, searchKeyword: string)

  const Url: string := "https://openapi.naver.com/v1/search/local.json"
  const Sort: string := "random"
  const CoordinateScale: real := 10000000.0

  predicate IsDigit(c: char) { '0' <= c <= '9' }

  function DigitsValue(d: string): (n: nat)
    requires forall k :: 0 <= k < |d| ==> IsDigit(d[k])
    decreases |d|
  {
    if d == [] then 0
    else
      var last := d[|d| - 1];
      assert IsDigit(last);
      DigitsValue(d[..|d| - 1]) * 10 + (last as int - '0' as int)
  }

  predicate AllDigits(d: string) {
    d != [] && forall k :: 0 <= k < |d| ==> IsDigit(d[k])
  }

  /** Python's `int(s)` on an optionally signed run of ASCII digits: the
      digits' value, negated after a minus sign; any other text is `None`
      (Python raises `ValueError`). */
  function ParseInt(s: string): (r: Option<int>)
    ensures r.Some? <==> AllDigits(s) || (|s| > 0 && (s[0] == '+' || s[0] == '-') && AllDigits(s[1..]))
    ensures AllDigits(s) ==> r == Some(DigitsValue(s))
    ensures |s| > 0 && s[0] == '+' && AllDigits(s[1..]) ==> r == Some(DigitsValue(s[1..]))
    ensures |s| > 0 && s[0] == '-' && AllDigits(s[1..]) ==> r == Some(-(DigitsValue(s[1..]) as int))
  {
    if |s| > 0 && (s[0] == '+' || s[0] == '-') then
      if AllDigits(s[1..]) then
        Some(if s[0] == '-' then -(DigitsValue(s[1..]) as int) else DigitsValue(s[1..]))
      else None
    else if AllDigits(s) then Some(DigitsValue(s))
    else None
  }

  function Digit(k: nat): (c: char)
    requires k < 10
    ensures IsDigit(c) && c as int - '0' as int == k
  {
    ('0' as int + k) as char
  }

  /** Python's `str(n)` for a natural number: its decimal digits. */
  function Decimal(n: nat): (r: string)
    ensures AllDigits(r) && DigitsValue(r) == n
    decreases n
  {
    if n < 10 then [Digit(n)]
    else
      var init := Decimal(n / 10);
      var r := init + [Digit(n % 10)];
      assert r[..|r| - 1] == init;
      r
  }

  /** `int` reads back what `str` writes, with or without a minus sign. */
  lemma ParseDecimal(n: nat)
    ensures ParseInt(Decimal(n)) == Some(n)
    ensures ParseInt("-" + Decimal(n)) == Some(-(n as int))
  {
    var d := Decimal(n);
    assert IsDigit(d[0]);
    assert ("-" + d)[1..] == d;
  }

  /** `int(f)` succeeds: the key is there, not `null`, and holds an integer. */
  predicate Parses(f: Field<string>) {
    f.Given? && ParseInt(f.value).Some?
  }

  /** Lines 41-45: `lat` from `mapy` and `lng` from `mapx`, each divided by
      10^7, or (0.0, 0.0) when either one is absent, `null` or not an integer. */
  function Coordinates(item: Item): (r: (real, real))
    ensures Parses(item.mapy) && Parses(item.mapx) ==>
              r == (ParseInt(item.mapy.value).value as real / CoordinateScale,
                    ParseInt(item.mapx.value).value as real / CoordinateScale)
    ensures !(Parses(item.mapy) && Parses(item.mapx)) ==> r == (0.0, 0.0)
  {
    if item.mapx.Given? && item.mapy.Given? then
      match (ParseInt(item.mapy.value), ParseInt(item.mapx.value))
      case (Some(y), Some(x)) => (y as real / CoordinateScale, x as real / CoordinateScale)
      case _ => (0.0, 0.0)
    else (0.0, 0.0)
  }

  /** Coordinates written as decimal integers come back scaled, latitude
      from `mapy` first. */
  lemma CoordinatesOfDecimals(item: Item, x: nat, y: nat)
    requires item.mapx == Given(Decimal(x)) && item.mapy == Given(Decimal(y))
    ensures Coordinates(item) == (y as real / CoordinateScale, x as real / CoordinateScale)
  {
    ParseDecimal(x);
    ParseDecimal(y);
  }

  /** `item.get("roadAddress") or item.get("address", "")`: a non-empty road
      address wins; otherwise the address, "" where the key is absent and
      `None` where it is `null`. */
  function AddressOf(item: Item): (r: Option<string>)
    ensures Filled(item.roadAddress) ==> r == Some(item.roadAddress.value)
    ensures !Filled(item.roadAddress) && item.address.Missing? ==> r == Some("")
    ensures !Filled(item.roadAddress) && item.address.Null? ==> r == None
    ensures !Filled(item.roadAddress) && item.address.Given? ==> r == Some(item.address.value)
  {
    if Filled(item.roadAddress) then Some(item.roadAddress.value) else Get(item.address, "")
  }

  /** `title.replace("<b>", "").replace("</b>", "")`, which never lengthens
      the title. */
  function StripBold(title: string): (r: string)
    ensures |r| <= |title|
  {
    var once := ReplaceAll(title, "<b>", "");
    RemoveAllUnchangedIff(title, "<b>");
    RemoveAllUnchangedIff(once, "</b>");
    ReplaceAll(once, "</b>", "")
  }

  /** One item of the loop body; `None` where `item["title"]` raises, which
      it does for an absent key (`KeyError`) and for `null` (`None` has no
      `replace`). */
  function Normalise(item: Item, query: string): (r: Option<Place>)
    ensures r.Some? <==> item.title.Given?
    ensures r.Some? ==> r.value.name == StripBold(item.title.value) && r.value.searchKeyword == query
    ensures r.Some? ==> r.value.category == Get(item.category, "") && r.value.link == Get(item.link, "")
    ensures r.Some? ==> r.value.address == AddressOf(item)
    ensures r.Some? ==> (r.value.lat, r.value.lng) == Coordinates(item)
  {
    if !item.title.Given? then None
    else
      var (lat, lng) := Coordinates(item);
      Some(Place(StripBold(item.title.value), Get(item.category, ""), AddressOf(item),
                 lat, lng, Get(item.link, ""), query))
  }

  /** The loop over `items`: one place per item in item order, or `None`
      as soon as one item has no title. */
  function NormaliseAll(items: seq<Item>, query: string): (r: Option<seq<Place>>)
    ensures r.Some? <==> forall k :: 0 <= k < |items| ==> items[k].title.Given?
    ensures r.Some? ==> |r.value| == |items|
    ensures r.Some? ==> forall k :: 0 <= k < |items| ==> Normalise(items[k], query) == Some(r.value[k])
    decreases |items|
  {
    if items == [] then Some([])
    else
      match NormaliseAll(items[..|items| - 1], query)
      case None => None
      case Some(init) =>
        match Normalise(items[|items| - 1], query)
        case None => None
        case Some(p) => Some(init + [p])
  }

  /** What one call produces: the results, and the request it sent, if any. */
  datatype SearchOutcome = SearchOutcome(results: seq<Place>, sent: Option<SearchRequest>)

  predicate HasCredentials(creds: Credentials) {
    Present(creds.clientId) && Present(creds.clientSecret)
  }

  /** Lines 16-25: the one request, with both credentials as headers. */
  function RequestFor(creds: Credentials, query: string, display: int): SearchRequest
    requires HasCredentials(creds)
  {
    SearchRequest(creds.clientId.value, creds.clientSecret.value, query, display, Sort)
  }

  /** `data.get("total", 0) == 0`: true for an absent total and for 0, and
      false for `null`, since Python's `None == 0` is false. */
  predicate NoTotal(total: Field<int>) {
    Get(total, 0) == Some(0)
  }

  /** The exchange ends before the loop with no results: it raised, the
      total is absent or 0, or `data["items"]` raises (absent) or cannot be
      iterated (`null`). */
  predicate EndsEarly(o: HttpOutcome) {
    o.Failed? || NoTotal(o.body.total) || !o.body.items.Given?
  }

  /** The behaviour of `search_naver_local(query, display)`. */
  function Search(creds: Credentials, query: string, display: int,
                  service: (nat, SearchRequest) -> HttpOutcome, call: nat): (r: SearchOutcome)
    ensures !HasCredentials(creds) ==> r == SearchOutcome([], None)
    ensures HasCredentials(creds) ==> r.sent == Some(RequestFor(creds, query, display))
    ensures HasCredentials(creds) && EndsEarly(service(call, RequestFor(creds, query, display))) ==> r.results == []
    ensures HasCredentials(creds) && !EndsEarly(service(call, RequestFor(creds, query, display))) ==>
              r.results == NormaliseAll(service(call, RequestFor(creds, query, display)).body.items.value, query).GetOr([])
    ensures forall p :: p in r.results ==> p.searchKeyword == query
  {
    if !HasCredentials(creds) then SearchOutcome([], None)
    else
      var req := RequestFor(creds, query, display);
      var results :=
        match service(call, req)
        case Failed => []
        case Received(body) =>
          if NoTotal(body.total) then []
          else if !body.items.Given? then []
          else NormaliseAll(body.items.value, query).GetOr([]);
      SearchOutcome(results, Some(req))
  }

  /** The client itself: the guard, the one request, and the loop that
      appends a normalised place per item. */
  method SearchLocal(creds: Credentials, query: string, display: int,
                     service: (nat, SearchRequest) -> HttpOutcome, call: nat)
    returns (results: seq<Place>, sent: Option<SearchRequest>)
    ensures SearchOutcome(results, sent) == Search(creds, query, display, service, call)
  {
    if !Present(creds.clientId) || !Present(creds.clientSecret) {
      return [], None;
    }
    var req := RequestFor(creds, query, display);
    sent := Some(req);
    var response := service(call, req);
    if response.Failed? {
      return [], sent;
    }
    var body := response.body;
    if NoTotal(body.total) {
      return [], sent;
    }
    if !body.items.Given? {
      return [], sent;
    }
    var items := body.items.value;
    results := [];
    var i := 0;
    while i < |items|
      invariant 0 <= i <= |items|
      invariant NormaliseAll(items[..i], query) == Some(results)
    {
      var place := Normalise(items[i], query);
      if place.None? {
        NormaliseAllAbortsAt(items, query, i);
        return [], sent;
      }
      assert items[..i + 1][..i] == items[..i];
      results := results + [place.value];
      i := i + 1;
    }
    assert items[..i] == items;
  }

  lemma NormaliseAllAbortsAt(items: seq<Item>, query: string, i: nat)
    requires i < |items| && !items[i].title.Given?
    ensures NormaliseAll(items, query) == None
  {
  }

  /** A title with no `<` in it is kept whole as the place name. */
  lemma {:induction false} PlainTitleKept(title: string)
    requires '<' !in title
    ensures StripBold(title) == title
  {
    OccurrenceHasFirstChar(title, "<b>");
    OccurrenceHasFirstChar(title, "</b>");
    RemoveAllUnchangedIff(title, "<b>");
    RemoveAllUnchangedIff(title, "</b>");
  }

  lemma OccurrenceHasFirstChar(s: string, pat: string)
    requires pat != ""
    ensures Occurs(s, pat) ==> pat[0] in s
  {
    if Occurs(s, pat) {
      var i :| OccursAt(s, pat, i);
      assert s[i] == pat[0];
    }
  }

  /** The tags are removed in one pass each, so markup can survive: "<<b>b>"
      becomes "<b>". */
  lemma StripBoldIsOnePass()
    ensures StripBold("<<b>b>") == "<b>"
  {
    assert "<<b>b>"[..3][1] != "<b>"[1];
    assert "<<b>b>"[1..] == "<b>b>";
    assert "<b>b>"[..3] == "<b>";
    assert "<b>b>"[3..] == "b>";
    assert ReplaceAll("<<b>b>", "<b>", "") == "<b>";
    assert ReplaceAll("<b>", "</b>", "") == "<b>";
  }

  /** With a title on every item, one place per item, in item order. */
  lemma ResultsFollowItems(creds: Credentials, query: string, display: int,
                           service: (nat, SearchRequest) -> HttpOutcome, call: nat, body: SearchBody)
    requires HasCredentials(creds)
    requires service(call, RequestFor(creds, query, display)) == Received(body)
    requires !NoTotal(body.total) && body.items.Given?
    requires forall k :: 0 <= k < |body.items.value| ==> body.items.value[k].title.Given?
    ensures |Search(creds, query, display, service, call).results| == |body.items.value|
    ensures forall k :: 0 <= k < |body.items.value| ==>
              Normalise(body.items.value[k], query) == Some(Search(creds, query, display, service, call).results[k])
  {
  }
}
