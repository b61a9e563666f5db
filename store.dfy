/** The session holder of frontend/src/store/analysisStore.ts and the
    analysis data it holds. Courses and personas are heap objects: the
    screens copy the arrays that hold them, never the objects, so an edit
    made through a copy is seen through the store. */
module AnalysisStore {
  import opened Wrappers
  import opened NaverClient

  datatype Metadata = Metadata(location: string, date: string, groupName: string)

  class CourseStep {
    var step: int
    var category: string
    var finalQuery: string

    constructor (step: int, category: string, finalQuery: string)
      ensures this.step == step && this.category == category && this.finalQuery == finalQuery
    {
      this.step, this.category, this.finalQuery := step, category, finalQuery;
    }
  }

  datatype PreferenceKind = Like | Dislike {
    function Other(): PreferenceKind {
      if Like? then Dislike else Like
    }
  }

  class Persona {
    var name: string
    /** `None` when the object has no `likes` (or `dislikes`) property. */
    var likes: Option<seq<string>>
    var dislikes: Option<seq<string>>

    constructor (name: string, likes: Option<seq<string>>, dislikes: Option<seq<string>>)
      ensures this.name == name && this.likes == likes && this.dislikes == dislikes
    {
      this.name, this.likes, this.dislikes := name, likes, dislikes;
    }

    function Tags(kind: PreferenceKind): Option<seq<string>>
      reads this
    {
      if kind == Like then likes else dislikes
    }

    /** Appends `value`, creating the list when the property is missing. */
    method AddTag(kind: PreferenceKind, value: string)
      modifies this
      ensures Tags(kind) == Some(old(Tags(kind)).GetOr([]) + [value])
      ensures Tags(kind.Other()) == old(Tags(kind.Other())) && name == old(name)
    {
      if kind == Like {
        if likes.None? {
          likes := Some([]);
        }
        likes := Some(likes.value + [value]);
      } else {
        if dislikes.None? {
          dislikes := Some([]);
        }
        dislikes := Some(dislikes.value + [value]);
      }
    }
  }

  datatype AnalysisData = AnalysisData(metadata: Metadata, personas: seq<Persona>, courses: seq<CourseStep>)

  /** A recommendation response as the screens read it; `analysis` is
      `None` when the response carries no `analysis` property. */
  datatype RecommendationResult = RecommendationResult(
    title: string, keywords: seq<string>, places: seq<Place>, analysis: Option<AnalysisData>)

  /** The screens the application navigates between. */
  datatype Screen = UploadScreen | ResultScreen(fileId: Option<string>)

  /** The store, with the `resultData` slot and its setter that the screens
      use (see `CallsCompleted` for the store as the source declares it). */
  class Store {
    var analysisData: Option<AnalysisData>
    var resultData: Option<RecommendationResult>

    /** Line 16: the session starts empty. */
    constructor ()
      ensures analysisData == None && resultData == None
    {
      analysisData, resultData := None, None;
    }

    /** Line 17: the value is replaced whole; nothing else changes. */
    method SetAnalysisData(data: Option<AnalysisData>)
      modifies this`analysisData
      ensures analysisData == data && resultData == old(resultData)
    {
      analysisData := data;
    }

    method SetResultData(data: Option<RecommendationResult>)
      modifies this`resultData
      ensures resultData == data && analysisData == old(analysisData)
    {
      resultData := data;
    }
  }

  /** The members analysisStore.ts declares on the store. */
  const DeclaredMembers: set<string> := {"analysisData", "setAnalysisData"}

  /** The store the screens are written against. */
  const UsedMembers: set<string> := DeclaredMembers + {"resultData", "setResultData"}

  /** How many of `calls` run before the first call of a name that is not
      defined: calling `undefined` throws a TypeError, which ends the handler. */
  function CallsCompleted(defined: set<string>, calls: seq<string>): (n: nat)
    ensures n <= |calls|
    ensures forall k :: 0 <= k < n ==> calls[k] in defined
    ensures n < |calls| ==> calls[n] !in defined
    decreases |calls|
  {
    if calls == [] || calls[0] !in defined then 0
    else 1 + CallsCompleted(defined, calls[1..])
  }

  /** As declared, the store has no `setResultData`: the upload screen's
      entry effect stops before clearing the selected file, its upload stops
      before the request is sent, and the edit screen's success handler stops
      before navigating. With the setter, all three run to the end. */
  lemma StoreWithoutResultSetter()
    ensures CallsCompleted(DeclaredMembers + {"setFile"},
                           ["setAnalysisData", "setResultData", "setFile"]) == 1
    ensures CallsCompleted(DeclaredMembers + {"createFile"},
                           ["setAnalysisData", "setResultData", "createFile"]) == 1
    ensures CallsCompleted(DeclaredMembers + {"navigate"},
                           ["setAnalysisData", "setResultData", "navigate"]) == 1
    ensures CallsCompleted(UsedMembers + {"setFile"},
                           ["setAnalysisData", "setResultData", "setFile"]) == 3
    ensures CallsCompleted(UsedMembers + {"createFile"},
                           ["setAnalysisData", "setResultData", "createFile"]) == 3
    ensures CallsCompleted(UsedMembers + {"navigate"},
                           ["setAnalysisData", "setResultData", "navigate"]) == 3
  {
    assert "setResultData" !in DeclaredMembers + {"setFile"};
    assert "setResultData" !in DeclaredMembers + {"createFile"};
    assert "setResultData" !in DeclaredMembers + {"navigate"};
  }
}
