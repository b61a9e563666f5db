/** The dashboard of frontend/src/routes/_layout/index.tsx: the owner's
    latest files as cards, their type badge and text preview, and the
    dialog that opens on a card. */
module Dashboard {
  import opened Wrappers
  import opened Text
  import opened Db
  import FilesApi
  import RecommendationsScreen

  datatype FileType = TextFile | ImageFile | VideoFile

  const ImageExtensions: seq<string> := ["jpg", "jpeg", "png", "gif", "webp", "svg"]
  const VideoExtensions: seq<string> := ["mp4", "mov", "avi", "mkv", "webm"]
  const PageSize: nat := 3
  const NoText: string := "텍스트 없음"
  const Ellipsis: string := "..."
  const DialogNoText: string := "텍스트를 불러올 수 없습니다."
  const PreviewLength: nat := 150

  /** Lines 37-46: the badge of a file is decided by the lower-cased text
      after its last dot alone: an image extension gives the image badge, a
      video extension the video badge, and everything else the text badge. */
  function GetFileType(filename: string): (r: FileType)
    ensures r == ImageFile <==> FileExtension(filename) in ImageExtensions
    ensures r == VideoFile <==> FileExtension(filename) in VideoExtensions
    ensures r == TextFile <==>
              FileExtension(filename) !in ImageExtensions && FileExtension(filename) !in VideoExtensions
  {
    TypeOfExtension(FileExtension(filename))
  }

  /** Lines 39-45: image extensions are checked first, but the two lists
      share no name, so the order of the checks does not matter. */
  function TypeOfExtension(ext: string): (r: FileType)
    ensures r == ImageFile <==> ext in ImageExtensions
    ensures r == VideoFile <==> ext in VideoExtensions
    ensures r == TextFile <==> ext !in ImageExtensions && ext !in VideoExtensions
  {
    if ext in ImageExtensions then ImageFile
    else if ext in VideoExtensions then
      assert ext !in ImageExtensions;
      VideoFile
    else TextFile
  }

  /** A name without a dot is classified by the whole name, so a file
      named "png" gets the image badge. */
  lemma BareNameClassifiedWhole(name: string)
    requires '.' !in name
    ensures GetFileType(name) == TypeOfExtension(Lower(name))
  {
    LastSegmentWhole(name, '.');
  }

  /** The badge does not depend on the case of the name. */
  lemma FileTypeIgnoresCase(filename: string)
    ensures GetFileType(Lower(filename)) == GetFileType(filename)
  {
    LastSegmentLower(filename, '.');
    LowerIdempotent(LastSegment(filename, '.'));
  }

  /** Every name the upload screen accepts gets the badge its extension
      suggests, except HEIC images, which the dashboard shows as text. */
  lemma AcceptedUploadBadge(filename: string)
    requires RecommendationsScreen.IsAllowedUpload(filename)
    ensures GetFileType(filename) == ImageFile <==> FileExtension(filename) in ["png", "jpg", "jpeg"]
    ensures GetFileType(filename) == VideoFile <==> FileExtension(filename) in ["mp4", "mov", "avi"]
    ensures GetFileType(filename) == TextFile <==> FileExtension(filename) in ["txt", "heic"]
  {
    AcceptedExtensionBadge(FileExtension(filename));
  }

  lemma AcceptedExtensionBadge(ext: string)
    requires ext in RecommendationsScreen.AllowedExtensions
    ensures TypeOfExtension(ext) == ImageFile <==> ext in ["png", "jpg", "jpeg"]
    ensures TypeOfExtension(ext) == VideoFile <==> ext in ["mp4", "mov", "avi"]
    ensures TypeOfExtension(ext) == TextFile <==> ext in ["txt", "heic"]
  {
  }

  lemma HeicShownAsText()
    ensures RecommendationsScreen.IsAllowedUpload("trip.heic")
    ensures GetFileType("trip.heic") == TextFile
  {
    LastSegmentAt("trip.heic", '.', 4);
    assert Lower("heic") == "heic";
  }

  /** Lines 69-72: a missing or empty text becomes a placeholder; a text
      longer than the limit is cut and marked with an ellipsis. */
  function TruncateText(text: Option<string>, maxLength: nat): (r: string)
    ensures text.None? || text.value == "" ==> r == NoText
    ensures text.Some? && 0 < |text.value| <= maxLength ==> r == text.value
    ensures text.Some? && |text.value| > maxLength ==>
              |r| == maxLength + |Ellipsis| && r[..maxLength] == text.value[..maxLength]
              && EndsWith(r, Ellipsis)
  {
    if text.None? || text.value == "" then NoText
    else if |text.value| > maxLength then
      var cut := text.value[..maxLength] + Ellipsis;
      assert cut[|cut| - |Ellipsis|..] == Ellipsis;
      cut
    else text.value
  }

  /** Truncating a preview again with the same limit changes nothing: the
      ellipsis keeps a cut text over the limit, and its prefix is the same. */
  lemma TruncateStable(text: string, maxLength: nat)
    requires text != ""
    ensures TruncateText(Some(TruncateText(Some(text), maxLength)), maxLength)
            == TruncateText(Some(text), maxLength)
  {
    if |text| > maxLength {
      var r := TruncateText(Some(text), maxLength);
      assert r[..maxLength] + Ellipsis == r;
    }
  }

  /** Line 84: the full name, or the e-mail when the name is missing or empty. */
  function Greeting(user: Option<User>): (r: string)
    ensures user.Some? && user.value.fullName.Some? && user.value.fullName.value != "" ==>
              r == user.value.fullName.value
    ensures user.Some? && (user.value.fullName.None? || user.value.fullName.value == "") ==>
              r == user.value.email
    ensures user.None? ==> r == ""
  {
    if user.None? then ""
    else if user.value.fullName.Some? && user.value.fullName.value != "" then user.value.fullName.value
    else user.value.email
  }

  /** A card of the grid (lines 119-158). */
  datatype Card = Card(fileType: FileType, filename: string, preview: string)

  function CardOf(f: FileRecord): Card {
    Card(GetFileType(f.filename), f.filename, TruncateText(f.extractedText, PreviewLength))
  }

  /** Lines 30-35 with 92-158: the query asks for the first page of three;
      the spinner and the error each show on their own; the empty notice
      and the grid show only once loading has ended without an error. */
  datatype Page = Page(spinner: bool, errorNotice: bool, emptyNotice: bool, cards: seq<Card>)

  function ListingOf(files: seq<FileRecord>, owner: Uuid): (r: seq<FileRecord>)
    ensures |r| == FilesApi.Min(PageSize, |FilesApi.OwnedBy(files, owner)|)
    ensures forall f :: f in r ==> f in files && f.ownerId == owner
    ensures r == FilesApi.OwnedBy(files, owner)[..|r|]
  {
    var page := FilesApi.ReadFiles(files, owner, 0, PageSize);
    assert page.count == 0 ==> page.data == [];
    page.data
  }

  function Render(isLoading: bool, failed: bool, listing: Option<seq<FileRecord>>): (p: Page)
    ensures p.spinner == isLoading && p.errorNotice == failed
    ensures p.emptyNotice <==> !isLoading && !failed && listing.GetOr([]) == []
    ensures isLoading || failed ==> p.cards == []
    ensures !isLoading && !failed ==>
              |p.cards| == |listing.GetOr([])|
              && forall k :: 0 <= k < |p.cards| ==> p.cards[k] == CardOf(listing.GetOr([])[k])
    ensures !(p.emptyNotice && p.cards != [])
  {
    var files := listing.GetOr([]);
    var quiet := !isLoading && !failed;
    Page(isLoading, failed, quiet && files == [],
         if quiet then seq(|files|, k requires 0 <= k < |files| => CardOf(files[k])) else [])
  }

  /** Line 173: the dialog's text, with a fixed message when it is empty. */
  function DialogText(selected: Option<FileRecord>): (r: string)
    ensures selected.Some? && selected.value.extractedText.Some? && selected.value.extractedText.value != "" ==>
              r == selected.value.extractedText.value
    ensures !(selected.Some? && selected.value.extractedText.Some? && selected.value.extractedText.value != "") ==>
              r == DialogNoText
  {
    if selected.Some? && selected.value.extractedText.Some? && selected.value.extractedText.value != ""
    then selected.value.extractedText.value
    else DialogNoText
  }

  /** Lines 176-183: the "open original" button needs a non-empty URL. */
  predicate ShowsOriginalLink(selected: Option<FileRecord>) {
    selected.Some? && selected.value.fileUrl.Some? && selected.value.fileUrl.value != ""
  }

  /** What the open dialog shows: the file name as its title, the text, and
      the URL the "open original" button opens, if it is shown. */
  datatype DialogView = DialogView(title: string, text: string, originalLink: Option<string>)

  /** Lines 163-187: the dialog on the selected file; with no selection the
      title is empty. */
  function DialogOf(selected: Option<FileRecord>): (d: DialogView)
    ensures d.title == (if selected.Some? then selected.value.filename else "")
    ensures d.text == DialogText(selected)
    ensures d.originalLink.Some? <==> ShowsOriginalLink(selected)
    ensures d.originalLink.Some? ==> d.originalLink == selected.value.fileUrl
  {
    DialogView(if selected.Some? then selected.value.filename else "",
               DialogText(selected),
               if ShowsOriginalLink(selected) then selected.value.fileUrl else None)
  }

  class DashboardState {
    var selectedFile: Option<FileRecord>
    var isModalOpen: bool

    constructor ()
      ensures selectedFile == None && !isModalOpen
    {
      selectedFile := None;
      isModalOpen := false;
    }

    /** Lines 74-78: any card opens the dialog on that file. */
    method HandleFileClick(file: FileRecord)
      modifies this
      ensures selectedFile == Some(file) && isModalOpen
    {
      selectedFile := Some(file);
      isModalOpen := true;
    }

    /** Line 163: the dialog's own open/close; the selection stays. */
    method SetModalOpen(open: bool)
      modifies this
      ensures isModalOpen == open && selectedFile == old(selectedFile)
    {
      isModalOpen := open;
    }
  }

  /** Closing and reopening the dialog shows the last clicked file again. */
  method ReopenShowsLastFile(d: DashboardState, a: FileRecord, b: FileRecord) returns (view: DialogView)
    modifies d
    ensures d.isModalOpen && d.selectedFile == Some(b)
    ensures view == DialogOf(Some(b)) && view.title == b.filename && view.text == DialogText(Some(b))
  {
    d.HandleFileClick(a);
    d.HandleFileClick(b);
    d.SetModalOpen(false);
    d.SetModalOpen(true);
    view := DialogOf(d.selectedFile);
  }
}
