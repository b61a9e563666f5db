/** The upload screen of frontend/src/routes/_layout/recommendations.tsx:
    choosing a file, checking its extension, and sending it. */
module RecommendationsScreen {
  import opened Wrappers
  import opened Text
  import opened AnalysisStore

  /** A file the browser hands over: its name and its size in bytes. */
  datatype LocalFile = LocalFile(name: string, size: nat)

  datatype ToastKind = Success | Error | Warning
  datatype Toast = Toast(title: string, description: string, kind: ToastKind)

  const AllowedExtensions: seq<string> := ["txt", "png", "jpg", "jpeg", "heic", "mp4", "mov", "avi"]

  const UnsupportedToast := Toast("지원하지 않는 파일 형식입니다.",
                                  "텍스트(.txt), 이미지, 동영상 파일만 업로드 가능합니다.", Error)
  const NoFileToast := Toast("파일을 선택해주세요.",
                             "분석할 파일(텍스트, 이미지, 동영상)이 필요합니다.", Warning)
  const UploadedToast := Toast("업로드 성공!", "AI가 내용을 분석하여 지도를 생성합니다.", Success)
  const UploadFailedTitle: string := "업로드 실패"
  const UploadFailedDefault: string := "파일을 다시 확인해주세요."

  const VideoLoadingText: string := "동영상 분석 중... (시간이 조금 걸립니다)"
  const DefaultLoadingText: string := "AI가 열심히 분석 중..."

  /** Lines 82-84: an extension that is present and listed. */
  predicate IsAllowedUpload(name: string)
  {
    var ext := FileExtension(name);
    ext != "" && ext in AllowedExtensions
  }

  /** The test for a missing extension adds nothing: the empty text is not
      a listed extension. */
  lemma EmptyExtensionTestRedundant(name: string)
    ensures IsAllowedUpload(name) <==> FileExtension(name) in AllowedExtensions
  {
    assert "" !in AllowedExtensions;
  }

  /** Acceptance depends only on the text after the last dot, compared
      without regard to case; a name without any dot is compared whole. */
  lemma AllowedUploadIff(name: string, k: int)
    requires 0 <= k < |name| && name[k] == '.' && '.' !in name[k + 1..]
    ensures IsAllowedUpload(name) <==> Lower(name[k + 1..]) in AllowedExtensions
  {
    LastSegmentAt(name, '.', k);
  }

  lemma AllowedUploadWholeName(name: string)
    requires '.' !in name
    ensures IsAllowedUpload(name) <==> Lower(name) in AllowedExtensions
  {
    LastSegmentWhole(name, '.');
  }

  /** Upper case is accepted: "trip.TXT" is a text upload. */
  lemma UpperCaseExtensionAccepted()
    ensures IsAllowedUpload("trip.TXT")
  {
    AllowedUploadIff("trip.TXT", 4);
    assert Lower("TXT") == "txt";
  }

  /** Only the last extension counts: "notes.txt.gz" is refused. */
  lemma OnlyLastExtensionCounts()
    ensures !IsAllowedUpload("notes.txt.gz")
  {
    AllowedUploadIff("notes.txt.gz", 9);
    assert Lower("gz") == "gz";
  }

  /** A name ending in a dot has an empty extension and is refused. */
  lemma TrailingDotRefused()
    ensures !IsAllowedUpload("photo.")
  {
    assert LastSegment("photo.", '.') == "";
  }

  /** A name without a dot is its own extension: a bare "txt" is accepted. */
  lemma BareExtensionAccepted()
    ensures IsAllowedUpload("txt")
  {
    var name := "txt";
    assert name == ['t', 'x', 't'];
    assert '.' !in name;
    AllowedUploadWholeName(name);
    var ext := Lower(name);
    assert ext[0] == 't' && ext[1] == 'x' && ext[2] == 't';
    assert ext == name;
    assert ext == AllowedExtensions[0];
  }

  /** Lines 170-174: the loading label; the suffix test is case-sensitive. */
  function LoadingText(file: Option<LocalFile>): (r: string)
    ensures r == VideoLoadingText || r == DefaultLoadingText
    ensures file.None? ==> r == DefaultLoadingText
  {
    if file.Some? && (EndsWith(file.value.name, ".mp4") || EndsWith(file.value.name, ".mov")
                      || EndsWith(file.value.name, ".avi"))
    then VideoLoadingText
    else DefaultLoadingText
  }

  /** A name ending in a dot and one of the lower-case video extensions
      passes the extension check. */
  lemma VideoSuffixAllowed(n: string, ext: string)
    requires ext == "mp4" || ext == "mov" || ext == "avi"
    requires EndsWith(n, ['.'] + ext)
    ensures IsAllowedUpload(n)
  {
    var k := |n| - 4;
    assert n[k] == n[k..][0] == '.';
    assert n[k + 1..] == n[k..][1..] == ext;
    assert '.' !in ext;
    AllowedUploadIff(n, k);
    var low := Lower(ext);
    assert low[0] == ext[0] && low[1] == ext[1] && low[2] == ext[2];
    assert low == ext;
  }

  /** Every file that gets the video label passes the extension check, but
      an upper-case video name is accepted and still gets the generic label. */
  lemma VideoLabelImpliesAllowed(file: LocalFile)
    requires LoadingText(Some(file)) == VideoLoadingText
    ensures IsAllowedUpload(file.name)
  {
    var n := file.name;
    if EndsWith(n, ".mp4") {
      assert ".mp4" == ['.'] + "mp4";
      VideoSuffixAllowed(n, "mp4");
    } else if EndsWith(n, ".mov") {
      assert ".mov" == ['.'] + "mov";
      VideoSuffixAllowed(n, "mov");
    } else {
      assert ".avi" == ['.'] + "avi";
      VideoSuffixAllowed(n, "avi");
    }
  }

  lemma UpperCaseVideoGetsGenericLabel()
    ensures IsAllowedUpload("CLIP.MP4")
    ensures LoadingText(Some(LocalFile("CLIP.MP4", 0))) == DefaultLoadingText
  {
    AllowedUploadIff("CLIP.MP4", 4);
    assert Lower("MP4") == "mp4";
    assert "CLIP.MP4"[4..] != ".mp4";
    assert "CLIP.MP4"[5] != ".mov"[1] && "CLIP.MP4"[5] != ".avi"[1];
  }

  /** Line 70: the error message, or a fixed hint when it is empty. */
  function UploadErrorToast(message: string): (t: Toast)
    ensures t.title == UploadFailedTitle && t.kind == Error
    ensures message != "" ==> t.description == message
    ensures message == "" ==> t.description == UploadFailedDefault
  {
    Toast(UploadFailedTitle, if message != "" then message else UploadFailedDefault, Error)
  }

  class Uploader {
    const store: Store
    var file: Option<LocalFile>
    /** The file input's own value, which a rejected choice clears. */
    var inputValue: Option<LocalFile>

    constructor (store: Store)
      ensures this.store == store && file == None && inputValue == None
    {
      this.store := store;
      file := None;
      inputValue := None;
    }

    /** Lines 35-39: entering the screen clears the session and the file. */
    method Enter()
      modifies this, store
      ensures store.analysisData == None && store.resultData == None
      ensures file == None && inputValue == old(inputValue)
    {
      store.SetAnalysisData(None);
      store.SetResultData(None);
      file := None;
    }

    /** Lines 77-96: no choice changes nothing; a refused extension shows
        an error and clears the input but keeps the earlier file; an
        accepted one becomes the file. */
    method HandleFileChange(chosen: Option<LocalFile>) returns (toast: Option<Toast>)
      modifies this
      ensures chosen.None? ==> toast == None && file == old(file) && inputValue == old(inputValue)
      ensures chosen.Some? && !IsAllowedUpload(chosen.value.name) ==>
                toast == Some(UnsupportedToast) && file == old(file) && inputValue == None
      ensures chosen.Some? && IsAllowedUpload(chosen.value.name) ==>
                toast == None && file == chosen && inputValue == chosen
    {
      if chosen.None? {
        return None;
      }
      inputValue := chosen;
      var ext := FileExtension(chosen.value.name);
      if ext == "" || ext !in AllowedExtensions {
        inputValue := None;
        return Some(UnsupportedToast);
      }
      file := chosen;
      return None;
    }

    /** Lines 98-107 with 45-54: without a file only a warning; with one,
        the session is cleared and that file is uploaded. */
    method HandleSubmit() returns (toast: Option<Toast>, upload: Option<LocalFile>)
      modifies store
      ensures file.None? ==>
                toast == Some(NoFileToast) && upload == None
                && store.analysisData == old(store.analysisData)
                && store.resultData == old(store.resultData)
      ensures file.Some? ==>
                toast == None && upload == file
                && store.analysisData == None && store.resultData == None
    {
      if file.None? {
        return Some(NoFileToast), None;
      }
      store.SetAnalysisData(None);
      store.SetResultData(None);
      return None, file;
    }

    /** Lines 56-65: a success toast and the result screen for the new id. */
    method OnUploadSuccess(id: string) returns (toast: Toast, nav: Screen)
      ensures toast == UploadedToast && nav == ResultScreen(Some(id))
    {
      toast := UploadedToast;
      nav := ResultScreen(Some(id));
    }
  }

  /** A refused choice after an accepted one leaves the accepted file in
      place, so submitting still uploads it. */
  method RefusedChoiceKeepsFile(u: Uploader, good: LocalFile, bad: LocalFile)
      returns (upload: Option<LocalFile>)
    requires IsAllowedUpload(good.name) && !IsAllowedUpload(bad.name)
    modifies u, u.store
    ensures upload == Some(good)
  {
    var t1 := u.HandleFileChange(Some(good));
    var t2 := u.HandleFileChange(Some(bad));
    var t3;
    t3, upload := u.HandleSubmit();
  }
}
