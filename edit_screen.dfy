/** The edit screen of frontend/src/routes/_layout/edit.tsx: a working copy
    of the session's courses and personas, the handlers that edit them by
    index, and the re-recommendation round trip. The copies are shallow: the
    working arrays hold the same course and persona objects as the store. */
module EditScreen {
  import opened Wrappers
  import opened Text
  import opened AnalysisStore

  /** What one course or persona object serialises to in a request body. */
  datatype CourseValue = CourseValue(step: int, category: string, finalQuery: string)
  datatype PersonaValue = PersonaValue(name: string, likes: Option<seq<string>>, dislikes: Option<seq<string>>)

  datatype ReRecommendRequest = ReRecommendRequest(
    courses: seq<CourseValue>, metadata: Option<Metadata>, personas: Option<seq<PersonaValue>>)

  function ValueOfCourse(c: CourseStep): CourseValue
    reads c
  {
    CourseValue(c.step, c.category, c.finalQuery)
  }

  function ValueOfPersona(p: Persona): PersonaValue
    reads p
  {
    PersonaValue(p.name, p.likes, p.dislikes)
  }

  function CourseValues(cs: seq<CourseStep>): (r: seq<CourseValue>)
    reads cs
    ensures |r| == |cs| && forall k :: 0 <= k < |cs| ==> r[k] == ValueOfCourse(cs[k])
  {
    seq(|cs|, k reads cs requires 0 <= k < |cs| => ValueOfCourse(cs[k]))
  }

  function PersonaValues(ps: seq<Persona>): (r: seq<PersonaValue>)
    reads ps
    ensures |r| == |ps| && forall k :: 0 <= k < |ps| ==> r[k] == ValueOfPersona(ps[k])
  {
    seq(|ps|, k reads ps requires 0 <= k < |ps| => ValueOfPersona(ps[k]))
  }

  /** JavaScript's `splice(start, 1)`: removes the element at `start`,
      counted from the end when negative; no element when out of range. */
  function SpliceOne<T>(s: seq<T>, start: int): seq<T> {
    var from := if start < 0 then (if |s| + start < 0 then 0 else |s| + start)
                else (if start > |s| then |s| else start);
    s[..from] + s[(if from + 1 > |s| then |s| else from + 1)..]
  }

  /** Removing at a valid index drops exactly that element and keeps the
      others in order; an index past the end removes nothing. */
  lemma SpliceOneSpec<T>(s: seq<T>, i: int)
    ensures 0 <= i < |s| ==> |SpliceOne(s, i)| == |s| - 1
    ensures 0 <= i < |s| ==> forall k :: 0 <= k < |s| - 1 ==>
              SpliceOne(s, i)[k] == if k < i then s[k] else s[k + 1]
    ensures i >= |s| ==> SpliceOne(s, i) == s
  {
    if i >= |s| {
      assert s[..|s|] == s;
    }
  }

  const RedirectAlert: string := "분석 데이터가 초기화되었습니다. 다시 업로드해주세요."
  const RetryFailedPrefix: string := "재검색 실패: "

  class Editor {
    const store: Store
    const fileId: Option<string>
    var courses: seq<CourseStep>
    var personas: seq<Persona>
    var newLikeInput: map<int, string>
    var newDislikeInput: map<int, string>
    var showLikeInput: map<int, bool>
    var showDislikeInput: map<int, bool>

    function Input(kind: PreferenceKind): map<int, string>
      reads this
    {
      if kind == Like then newLikeInput else newDislikeInput
    }

    function Shown(kind: PreferenceKind): map<int, bool>
      reads this
    {
      if kind == Like then showLikeInput else showDislikeInput
    }

    /** Lines 41-52: the first render seeds the working copies from the
        store, or with empty arrays when there is no session. */
    constructor (store: Store, fileId: Option<string>)
      ensures this.store == store && this.fileId == fileId
      ensures store.analysisData.Some? ==> courses == store.analysisData.value.courses
                                           && personas == store.analysisData.value.personas
      ensures store.analysisData.None? ==> courses == [] && personas == []
      ensures newLikeInput == map[] && newDislikeInput == map[]
      ensures showLikeInput == map[] && showDislikeInput == map[]
    {
      this.store, this.fileId := store, fileId;
      if store.analysisData.Some? {
        courses, personas := store.analysisData.value.courses, store.analysisData.value.personas;
      } else {
        courses, personas := [], [];
      }
      newLikeInput, newDislikeInput := map[], map[];
      showLikeInput, showDislikeInput := map[], map[];
    }

    /** Line 135: without a session the screen renders nothing. */
    predicate RendersNothing()
      reads this, store
    {
      store.analysisData.None?
    }

    /** Lines 55-64: without a session, alert and go back to the upload
        screen; with one, reseed the working copies from it. The screen
        renders nothing exactly when it redirects. */
    method SyncWithStore() returns (alert: Option<string>, redirect: Option<Screen>)
      modifies this
      ensures RendersNothing() <==> redirect.Some?
      ensures store.analysisData.None? ==>
                alert == Some(RedirectAlert) && redirect == Some(UploadScreen)
                && courses == old(courses) && personas == old(personas)
      ensures store.analysisData.Some? ==>
                alert == None && redirect == None
                && courses == store.analysisData.value.courses
                && personas == store.analysisData.value.personas
      ensures newLikeInput == old(newLikeInput) && newDislikeInput == old(newDislikeInput)
      ensures showLikeInput == old(showLikeInput) && showDislikeInput == old(showDislikeInput)
    {
      if store.analysisData.None? {
        return Some(RedirectAlert), Some(UploadScreen);
      }
      courses := store.analysisData.value.courses;
      personas := store.analysisData.value.personas;
      return None, None;
    }

    /** Lines 85-89: sets the search keyword of course `index` in place. The
        course object is shared, so every position holding it changes. */
    method HandleKeywordChange(index: nat, newValue: string)
      requires index < |courses|
      modifies courses[index]
      ensures forall j :: 0 <= j < |courses| ==>
                ValueOfCourse(courses[j]) ==
                  if courses[j] == courses[index]
                  then CourseValue(old(courses[j].step), old(courses[j].category), newValue)
                  else old(ValueOfCourse(courses[j]))
    {
      courses[index].finalQuery := newValue;
    }

    /** Lines 92-119: adds the trimmed input text to persona
        `personaIndex`'s likes or dislikes, creating the list when the
        persona has none, then empties and hides the input. A missing or
        blank input changes nothing. */
    method HandleAdd(personaIndex: nat, kind: PreferenceKind)
      requires personaIndex < |personas|
      modifies this, personas[personaIndex]
      ensures courses == old(courses) && personas == old(personas)
      ensures personaIndex !in old(Input(kind)) || Trim(old(Input(kind))[personaIndex]) == "" ==>
                unchanged(this) && unchanged(personas[personaIndex])
      ensures personaIndex in old(Input(kind)) && Trim(old(Input(kind))[personaIndex]) != "" ==>
                var p, value := personas[personaIndex], Trim(old(Input(kind))[personaIndex]);
                && p.Tags(kind) == Some(old(p.Tags(kind)).GetOr([]) + [value])
                && p.Tags(kind.Other()) == old(p.Tags(kind.Other())) && p.name == old(p.name)
                && Input(kind) == old(Input(kind))[personaIndex := ""]
                && Shown(kind) == old(Shown(kind))[personaIndex := false]
                && Input(kind.Other()) == old(Input(kind.Other()))
                && Shown(kind.Other()) == old(Shown(kind.Other()))
    {
      var input := Input(kind);
      if personaIndex !in input || Trim(input[personaIndex]) == "" {
        return;
      }
      personas[personaIndex].AddTag(kind, Trim(input[personaIndex]));
      CancelInput(personaIndex, kind);
    }

    /** Lines 122-133: `splice(itemIndex, 1)` on the persona's list. */
    method HandleRemove(personaIndex: nat, kind: PreferenceKind, itemIndex: int)
      requires personaIndex < |personas| && personas[personaIndex].Tags(kind).Some?
      modifies personas[personaIndex]
      ensures var p := personas[personaIndex];
              && p.Tags(kind) == Some(SpliceOne(old(p.Tags(kind)).value, itemIndex))
              && p.Tags(kind.Other()) == old(p.Tags(kind.Other()))
              && p.name == old(p.name)
    {
      var p := personas[personaIndex];
      if kind == Like {
        p.likes := Some(SpliceOne(p.likes.value, itemIndex));
      } else {
        p.dislikes := Some(SpliceOne(p.dislikes.value, itemIndex));
      }
    }

    /** The "+" button (lines 226, 344). */
    method OpenInput(personaIndex: nat, kind: PreferenceKind)
      modifies this
      ensures Shown(kind) == old(Shown(kind))[personaIndex := true]
      ensures Shown(kind.Other()) == old(Shown(kind.Other()))
      ensures newLikeInput == old(newLikeInput) && newDislikeInput == old(newDislikeInput)
      ensures courses == old(courses) && personas == old(personas)
    {
      if kind == Like {
        showLikeInput := showLikeInput[personaIndex := true];
      } else {
        showDislikeInput := showDislikeInput[personaIndex := true];
      }
    }

    /** Typing into the input box (lines 253, 371). */
    method ChangeInput(personaIndex: nat, kind: PreferenceKind, text: string)
      modifies this
      ensures Input(kind) == old(Input(kind))[personaIndex := text]
      ensures Input(kind.Other()) == old(Input(kind.Other()))
      ensures showLikeInput == old(showLikeInput) && showDislikeInput == old(showDislikeInput)
      ensures courses == old(courses) && personas == old(personas)
    {
      if kind == Like {
        newLikeInput := newLikeInput[personaIndex := text];
      } else {
        newDislikeInput := newDislikeInput[personaIndex := text];
      }
    }

    /** The cancel button (lines 285-288, 403-406): hide and empty the box. */
    method CancelInput(personaIndex: nat, kind: PreferenceKind)
      modifies this
      ensures Shown(kind) == old(Shown(kind))[personaIndex := false]
      ensures Input(kind) == old(Input(kind))[personaIndex := ""]
      ensures Shown(kind.Other()) == old(Shown(kind.Other()))
      ensures Input(kind.Other()) == old(Input(kind.Other()))
      ensures courses == old(courses) && personas == old(personas)
    {
      if kind == Like {
        showLikeInput := showLikeInput[personaIndex := false];
        newLikeInput := newLikeInput[personaIndex := ""];
      } else {
        showDislikeInput := showDislikeInput[personaIndex := false];
        newDislikeInput := newDislikeInput[personaIndex := ""];
      }
    }

    /** Lines 67-74: the working courses, with the metadata and the
        personas read from the store. */
    method BuildReRecommendRequest() returns (req: ReRecommendRequest)
      ensures req.courses == CourseValues(courses)
      ensures store.analysisData.None? ==> req.metadata == None && req.personas == None
      ensures store.analysisData.Some? ==>
                req.metadata == Some(store.analysisData.value.metadata)
                && req.personas == Some(PersonaValues(store.analysisData.value.personas))
    {
      var data := store.analysisData;
      if data.None? {
        req := ReRecommendRequest(CourseValues(courses), None, None);
      } else {
        req := ReRecommendRequest(CourseValues(courses), Some(data.value.metadata),
                                  Some(PersonaValues(data.value.personas)));
      }
    }

    /** Lines 75-79: the new analysis and the whole response replace the
        session, and the result screen opens for the same file. */
    method OnReRecommendSuccess(newData: RecommendationResult) returns (nav: Screen)
      modifies store
      ensures store.analysisData == newData.analysis && store.resultData == Some(newData)
      ensures nav == ResultScreen(fileId)
    {
      store.SetAnalysisData(newData.analysis);
      store.SetResultData(Some(newData));
      nav := ResultScreen(fileId);
    }

    /** Lines 80-82: an alert, and no state changes. */
    method OnReRecommendError(message: string) returns (alert: string)
      ensures alert == RetryFailedPrefix + message
      ensures |alert| == |RetryFailedPrefix| + |message| && EndsWith(alert, message)
    {
      alert := RetryFailedPrefix + message;
      assert alert[|alert| - |message|..] == message;
    }
  }

  /** The edit screen after a reseed holds the store's own persona objects,
      so a like added on the screen is in the request's personas, even though
      the request reads them from the store. */
  method AddedLikeReachesRequest(editor: Editor, i: nat, text: string) returns (req: ReRecommendRequest)
    requires editor.store.analysisData.Some? && i < |editor.store.analysisData.value.personas|
    modifies editor, editor.store.analysisData.value.personas[i]
    ensures var ps := old(editor.store.analysisData.value.personas);
            var before := old(ps[i].likes).GetOr([]);
            Trim(text) != "" ==> req.personas == Some(PersonaValues(ps))
                                 && req.personas.value[i].likes == Some(before + [Trim(text)])
  {
    var alert, redirect := editor.SyncWithStore();
    editor.ChangeInput(i, Like, text);
    editor.HandleAdd(i, Like);
    req := editor.BuildReRecommendRequest();
  }
}
