/** The recommendation route of backend/app/api/routes/recommendations.py:
    check the file, have the language model produce search keywords, search
    one place per keyword and return them. The keyword generator is the
    parameter `generate`; each search runs the local-search client. */
module RecommendationsApi {
  import opened Wrappers
  import opened Db
  import opened NaverClient

  const NoText: ApiError := ApiError(400, "텍스트가 없는 파일입니다.")
  const TitleSuffix: string := " 기반 추천 코스"
  const PlacesPerKeyword: int := 1

  datatype Recommendation = Recommendation(title: string, keywords: seq<string>, places: seq<Place>)

  /** The places found for each keyword, concatenated in keyword order;
      the search for keyword k is call `first + k` to the service. */
  function SearchAll(creds: Credentials, keywords: seq<string>,
                     service: (nat, SearchRequest) -> HttpOutcome, first: nat): seq<Place>
    decreases |keywords|
  {
    if keywords == [] then []
    else SearchAll(creds, keywords[..|keywords| - 1], service, first)
         + Search(creds, keywords[|keywords| - 1], PlacesPerKeyword, service, first + |keywords| - 1).results
  }

  function SentOf(o: SearchOutcome): seq<SearchRequest> {
    if o.sent.Some? then [o.sent.value] else []
  }

  /** The search requests sent for the keywords, in keyword order. */
  function SentAll(creds: Credentials, keywords: seq<string>,
                   service: (nat, SearchRequest) -> HttpOutcome, first: nat): (r: seq<SearchRequest>)
    ensures forall q :: q in r ==> q.display == PlacesPerKeyword && q.query in keywords
    ensures HasCredentials(creds) ==> |r| == |keywords|
    ensures HasCredentials(creds) ==>
              forall k :: 0 <= k < |r| ==> r[k] == RequestFor(creds, keywords[k], PlacesPerKeyword)
    ensures !HasCredentials(creds) ==> r == []
    decreases |keywords|
  {
    if keywords == [] then []
    else SentAll(creds, keywords[..|keywords| - 1], service, first)
         + SentOf(Search(creds, keywords[|keywords| - 1], PlacesPerKeyword, service, first + |keywords| - 1))
  }

  /** `create_recommendation`. Besides the response it yields the texts
      handed to the keyword generator and the search requests sent, so that
      the order of the guards is visible. */
  method CreateRecommendation(session: Session, currentUser: User, fileId: Uuid,
                              creds: Credentials, generate: string -> seq<string>,
                              service: (nat, SearchRequest) -> HttpOutcome)
    returns (r: Result<Recommendation, ApiError>, generatorInputs: seq<string>,
             requests: seq<SearchRequest>)
    ensures r.Err? ==> generatorInputs == [] && requests == []
    ensures GetFile(session.files, fileId).None? ==> r == Err(NotFound)
    ensures GetFile(session.files, fileId).Some? ==>
              var f := GetFile(session.files, fileId).value;
              if f.ownerId != currentUser.id then r == Err(Forbidden)
              else if f.extractedText.None? || f.extractedText.value == "" then r == Err(NoText)
              else
                var keywords := generate(f.extractedText.value);
                && generatorInputs == [f.extractedText.value]
                && r == Ok(Recommendation(f.filename + TitleSuffix, keywords, SearchAll(creds, keywords, service, 0)))
                && requests == SentAll(creds, keywords, service, 0)
  {
    generatorInputs, requests := [], [];
    var file := GetFile(session.files, fileId);
    if file.None? {
      return Err(NotFound), generatorInputs, requests;
    }
    var f := file.value;
    if f.ownerId != currentUser.id {
      return Err(Forbidden), generatorInputs, requests;
    }
    if f.extractedText.None? || f.extractedText.value == "" {
      return Err(NoText), generatorInputs, requests;
    }
    var keywords := generate(f.extractedText.value);
    generatorInputs := [f.extractedText.value];
    var finalPlaces := [];
    var i := 0;
    while i < |keywords|
      invariant 0 <= i <= |keywords|
      invariant finalPlaces == SearchAll(creds, keywords[..i], service, 0)
      invariant requests == SentAll(creds, keywords[..i], service, 0)
    {
      var places, sent := SearchLocal(creds, keywords[i], PlacesPerKeyword, service, i);
      assert keywords[..i + 1][..i] == keywords[..i];
      finalPlaces := finalPlaces + places;
      requests := requests + SentOf(SearchOutcome(places, sent));
      i := i + 1;
    }
    assert keywords[..i] == keywords;
    r := Ok(Recommendation(f.filename + TitleSuffix, keywords, finalPlaces));
  }

  /** Every place records one of the keywords as the search that found it. */
  lemma {:induction false} PlacesComeFromKeywords(creds: Credentials, keywords: seq<string>,
                                                  service: (nat, SearchRequest) -> HttpOutcome, first: nat)
    ensures forall p :: p in SearchAll(creds, keywords, service, first) ==> p.searchKeyword in keywords
    decreases |keywords|
  {
    if keywords != [] {
      var init := keywords[..|keywords| - 1];
      PlacesComeFromKeywords(creds, init, service, first);
      assert forall k :: k in init ==> k in keywords;
    }
  }

  /** The places for a keyword list are those for its first part followed
      by those for the rest, whose calls are numbered on from the first part's. */
  lemma {:induction false} SearchAllAppend(creds: Credentials, a: seq<string>, b: seq<string>,
                                           service: (nat, SearchRequest) -> HttpOutcome, first: nat)
    ensures SearchAll(creds, a + b, service, first)
            == SearchAll(creds, a, service, first) + SearchAll(creds, b, service, first + |a|)
    decreases |b|
  {
    if b != [] {
      var bi := b[..|b| - 1];
      var last := Search(creds, b[|b| - 1], PlacesPerKeyword, service, first + |a| + |b| - 1).results;
      assert (a + b)[..|a + b| - 1] == a + bi;
      assert (a + b)[|a + b| - 1] == b[|b| - 1];
      assert SearchAll(creds, a + b, service, first) == SearchAll(creds, a + bi, service, first) + last;
      assert SearchAll(creds, b, service, first + |a|) == SearchAll(creds, bi, service, first + |a|) + last;
      SearchAllAppend(creds, a, bi, service, first);
    } else {
      assert a + b == a;
    }
  }

  /** When the search service returns no more items than asked for, the
      response has at most one place per keyword. */
  lemma {:induction false} AtMostOnePlacePerKeyword(creds: Credentials, keywords: seq<string>,
                                                    service: (nat, SearchRequest) -> HttpOutcome, first: nat)
    requires forall i, q :: service(i, q).Received? && service(i, q).body.items.Given? ==>
                            |service(i, q).body.items.value| <= q.display
    ensures |SearchAll(creds, keywords, service, first)| <= |keywords|
    decreases |keywords|
  {
    if keywords != [] {
      var call := first + |keywords| - 1;
      AtMostOnePlacePerKeyword(creds, keywords[..|keywords| - 1], service, first);
      var o := Search(creds, keywords[|keywords| - 1], PlacesPerKeyword, service, call);
      if o.sent.Some? {
        var q := o.sent.value;
        match service(call, q)
        case Failed =>
        case Received(body) =>
          if body.items.Given? {
            assert |NormaliseAll(body.items.value, q.query).GetOr([])| <= |body.items.value|;
          }
      }
    }
  }
}
