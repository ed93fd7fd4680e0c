/** The upload form of app/adicionar-video/page.js: the checks a chosen video
    file must pass (an extension, an allowed media type, at most 500 MiB), the
    cleaning of its name, and the form state the change and submit handlers
    update. React state setters are modelled as assignments in call order, the
    last one winning; reads of `formData` inside a handler see the value it had
    when the handler started. */
module AddVideo {
  import opened Wrappers

  /** The parts of a browser `File` the page looks at: name, media type, size in bytes. */
  datatype VideoFile = VideoFile(name: string, mimeType: string, size: nat)

  const ValidVideoTypes: seq<string> := [
    "video/mp4",
    "video/webm",
    "video/ogg",
    "video/quicktime",
    "video/x-msvideo",
    "video/x-ms-wmv",
    "video/x-matroska"
  ]

  /** 500 MiB. */
  const MaxSize: nat := 500 * 1024 * 1024

  const NoExtension: string := "O arquivo deve ter uma extensão"
  const UnsupportedFormat: string := "Formato de vídeo não suportado. Use MP4, WebM, OGG, MOV, AVI, WMV ou MKV."
  const TooLarge: string := "O arquivo é muito grande. Tamanho máximo permitido: 500MB"

  /** The bank codes the form's `<select>` offers. */
  const BankOptions: seq<string> := [
    "prata", "di", "crefisa", "vctex", "hub_credito", "corbee", "ph_tech",
    "grandino", "lotus", "v8", "granapix", "icred", "novo_saque"
  ]

  // ---------------------------------------------------------------------------
  // Name cleaning

  /** `s.lastIndexOf(c)`: the position of the last `c`, or -1. */
  function LastIndexOf(s: string, c: char): (r: int)
    ensures -1 <= r < |s|
    ensures r == -1 <==> c !in s
    ensures r >= 0 ==> s[r] == c && c !in s[r + 1..]
  {
    if s == [] then -1
    else if s[|s| - 1] == c then |s| - 1
    else LastIndexOf(s[..|s| - 1], c)
  }

  /** `s.replace(/\./g, "")`. */
  function RemoveDots(s: string): (r: string)
    ensures '.' !in r
    ensures |r| <= |s|
  {
    if s == [] then []
    else if s[0] == '.' then RemoveDots(s[1..])
    else [s[0]] + RemoveDots(s[1..])
  }

  /** Removing the dots from a single character: a `.` goes, anything else stays. */
  lemma RemoveDotsChar(c: char)
    ensures RemoveDots([c]) == if c == '.' then [] else [c]
  {
    assert [c][1..] == [];
  }

  /** Removing the dots works piece by piece, so the characters kept stay in
      their order. */
  lemma {:induction false} RemoveDotsAppend(a: string, b: string)
    ensures RemoveDots(a + b) == RemoveDots(a) + RemoveDots(b)
  {
    if a == [] {
      assert a + b == b;
    } else {
      assert (a + b)[0] == a[0] && (a + b)[1..] == a[1..] + b;
      RemoveDotsAppend(a[1..], b);
    }
  }

  /** Removing the dots keeps every other character, as often as it occurs. */
  lemma {:induction false} RemoveDotsKeeps(s: string)
    ensures forall c :: c != '.' ==> multiset(RemoveDots(s))[c] == multiset(s)[c]
  {
    if s != [] {
      RemoveDotsKeeps(s[1..]);
      assert s == [s[0]] + s[1..];
    }
  }

  /** The extension: the name from its last `.` on. */
  function Extension(name: string): (r: string)
    requires '.' in name
    ensures r != [] && r[0] == '.' && '.' !in r[1..]
  {
    name[LastIndexOf(name, '.')..]
  }

  /** The name `validateFile` gives the renamed file: the part before the last
      `.` with every `.` removed, then the extension. */
  function CleanName(name: string): (r: string)
    requires '.' in name
    ensures |r| <= |name|
    ensures |Extension(name)| <= |r| && r[|r| - |Extension(name)|..] == Extension(name)
    ensures '.' !in r[..|r| - |Extension(name)|]
  {
    var i := LastIndexOf(name, '.');
    var front, e := RemoveDots(name[..i]), name[i..];
    assert (front + e)[|front|..] == e && (front + e)[..|front|] == front;
    front + e
  }

  /** The number of `.` characters in `s`. */
  function DotCount(s: string): nat {
    if s == [] then 0 else (if s[0] == '.' then 1 else 0) + DotCount(s[1..])
  }

  lemma {:induction false} DotCountAppend(a: string, b: string)
    ensures DotCount(a + b) == DotCount(a) + DotCount(b)
  {
    if a == [] {
      assert a + b == b;
    } else {
      assert (a + b)[0] == a[0] && (a + b)[1..] == a[1..] + b;
      DotCountAppend(a[1..], b);
    }
  }

  lemma {:induction false} NoDots(s: string)
    ensures DotCount(s) == 0 <==> '.' !in s
  {
    if s != [] {
      NoDots(s[1..]);
      assert s == [s[0]] + s[1..];
    }
  }

  /** An extension: a `.` and no other. */
  lemma ExtensionDots(e: string)
    requires e != [] && e[0] == '.' && '.' !in e[1..]
    ensures DotCount(e) == 1
  {
    NoDots(e[1..]);
  }

  /** The last `.` of `p + e` is the first character of `e` when `e` has no other. */
  lemma LastDotAt(p: string, e: string)
    requires e != [] && e[0] == '.' && '.' !in e[1..]
    ensures LastIndexOf(p + e, '.') == |p|
  {
    var s := p + e;
    assert s[|p|] == '.';
    assert s[|p| + 1..] == e[1..];
  }

  lemma RemoveDotsNoop(s: string)
    requires '.' !in s
    ensures RemoveDots(s) == s
  {
    if s != [] {
      RemoveDotsNoop(s[1..]);
      assert s == [s[0]] + s[1..];
    }
  }

  /** The cleaned name keeps the extension and has exactly one `.`, where the
      extension starts. */
  lemma CleanNameShape(name: string)
    requires '.' in name
    ensures var r := CleanName(name); var e := Extension(name);
      && |e| <= |r| && r[|r| - |e|..] == e
      && e[0] == '.' && '.' !in e[1..]
      && '.' !in r[..|r| - |e|]
      && DotCount(r) == 1
  {
    var i := LastIndexOf(name, '.');
    var p, e := RemoveDots(name[..i]), name[i..];
    var r := p + e;
    assert r[|r| - |e|..] == e;
    assert r[..|r| - |e|] == p;
    DotCountAppend(p, e);
    NoDots(p);
    ExtensionDots(e);
  }

  /** The extension is a suffix of the name. */
  lemma ExtensionSuffix(name: string)
    requires '.' in name
    ensures |Extension(name)| <= |name|
    ensures name[|name| - |Extension(name)|..] == Extension(name)
  {
  }

  /** The extension of the cleaned name is the extension of the original. */
  lemma CleanNameExtension(name: string)
    requires '.' in name
    ensures '.' in CleanName(name) && Extension(CleanName(name)) == Extension(name)
  {
    var i := LastIndexOf(name, '.');
    var p, e := RemoveDots(name[..i]), name[i..];
    assert e[0] == '.' && '.' !in e[1..];
    assert e[0] in p + e;
    LastDotAt(p, e);
    assert (p + e)[|p|..] == e;
  }

  /** Cleaning changes nothing exactly when the name has a single `.`. */
  lemma CleanNameFixedIff(name: string)
    requires '.' in name
    ensures CleanName(name) == name <==> DotCount(name) == 1
  {
    CleanNameShape(name);
    if DotCount(name) == 1 {
      OneDotFixed(name);
    }
  }

  /** A name whose only `.` starts its extension is already clean. */
  lemma OneDotFixed(name: string)
    requires '.' in name && DotCount(name) == 1
    ensures CleanName(name) == name
  {
    var i := LastIndexOf(name, '.');
    var p, e := name[..i], name[i..];
    assert name == p + e;
    DotCountAppend(p, e);
    ExtensionDots(e);
    NoDots(p);
    RemoveDotsNoop(p);
  }

  /** Cleaning a cleaned name changes nothing. */
  lemma CleanNameIdempotent(name: string)
    requires '.' in name
    ensures '.' in CleanName(name) && CleanName(CleanName(name)) == CleanName(name)
  {
    CleanNameShape(name);
    CleanNameExtension(name);
    CleanNameFixedIff(CleanName(name));
  }

  /** A name split at its last `.`: the front loses its dots, the extension stays. */
  lemma CleanNameSplit(p: string, e: string)
    requires e != [] && e[0] == '.' && '.' !in e[1..]
    ensures '.' in p + e && CleanName(p + e) == RemoveDots(p) + e
  {
    LastDotAt(p, e);
    assert (p + e)[..|p|] == p && (p + e)[|p|..] == e;
  }

  // ---------------------------------------------------------------------------
  // Validation

  /** The message `validateFile` shows for a file, or `None` when it passes:
      the rules are checked in the order extension, type, size. */
  function Problem(file: VideoFile): (r: Option<string>)
    ensures r == Some(NoExtension) <==> '.' !in file.name
    ensures r.Some? ==> r.value == NoExtension || r.value == UnsupportedFormat || r.value == TooLarge
  {
    if '.' !in file.name then Some(NoExtension)
    else if file.mimeType !in ValidVideoTypes then Some(UnsupportedFormat)
    else if file.size > MaxSize then Some(TooLarge)
    else None
  }

  /** The file `validateFile` stores once the name has an extension: same
      type and contents, cleaned name. */
  function Renamed(file: VideoFile): (r: VideoFile)
    requires '.' in file.name
    ensures r.mimeType == file.mimeType && r.size == file.size
    ensures '.' in r.name && Extension(r.name) == Extension(file.name) && DotCount(r.name) == 1
  {
    CleanNameShape(file.name);
    CleanNameExtension(file.name);
    VideoFile(CleanName(file.name), file.mimeType, file.size)
  }

  /** A file passes exactly when it has an extension, an allowed type and a size
      of at most 500 MiB. */
  lemma AcceptedIff(file: VideoFile)
    ensures Problem(file).None? <==>
      '.' in file.name && file.mimeType in ValidVideoTypes && file.size <= MaxSize
  {
  }

  /** A name without `.` is refused for its extension, whatever its type and size. */
  lemma NoExtensionFirst(file: VideoFile)
    requires '.' !in file.name
    ensures Problem(file) == Some(NoExtension)
  {
  }

  /** A type outside the list is refused for its format, whatever its size. */
  lemma FormatBeforeSize(file: VideoFile)
    requires '.' in file.name && file.mimeType !in ValidVideoTypes
    ensures Problem(file) == Some(UnsupportedFormat)
  {
  }

  /** Exactly 500 MiB passes; one byte more is refused for its size. */
  lemma SizeBoundary(name: string, mimeType: string)
    requires '.' in name && mimeType in ValidVideoTypes
    ensures Problem(VideoFile(name, mimeType, 524288000)).None?
    ensures Problem(VideoFile(name, mimeType, 524288001)) == Some(TooLarge)
  {
  }

  /** Every size above 500 MiB gets the size message, once the name and the
      type pass. */
  lemma SizeRule(file: VideoFile)
    requires '.' in file.name && file.mimeType in ValidVideoTypes && file.size > MaxSize
    ensures Problem(file) == Some(TooLarge)
  {
  }

  /** The rules do not look at the interior dots: a file and its renamed copy
      get the same verdict. */
  lemma RenamedSameVerdict(file: VideoFile)
    requires '.' in file.name
    ensures Problem(Renamed(file)) == Problem(file)
  {
  }

  // ---------------------------------------------------------------------------
  // The form

  /** A change event of one of the form's three inputs. */
  datatype Change =
    | TitleChanged(value: string)
    | BankChanged(value: string)
    | FileChosen(files: seq<VideoFile>)

  /** The multipart body handed to the upload call. */
  datatype Payload = Payload(title: string, bank: string, videoFile: VideoFile)

  datatype UploadOutcome = Uploaded | UploadFailed(message: string)

  /** The page's state: `formData`, `fileError`, `loading`, `error`, `success`,
      and the files the file input holds. */
  datatype FormState = FormState(
    title: string,
    bank: string,
    videoFile: Option<VideoFile>,
    fileError: Option<string>,
    loading: bool,
    error: Option<string>,
    success: bool,
    inputFiles: seq<VideoFile>)

  /** The submit button is enabled: `disabled={loading || fileError}`, where a
      `fileError` of `null` or `""` is falsy. Any of the three messages
      disables it; with nothing loading and no message it is enabled. */
  predicate SubmitEnabled(s: FormState)
    ensures s.loading ==> !SubmitEnabled(s)
    ensures s.fileError in {Some(NoExtension), Some(UnsupportedFormat), Some(TooLarge)} ==> !SubmitEnabled(s)
    ensures !s.loading && s.fileError.None? ==> SubmitEnabled(s)
  {
    !s.loading && (s.fileError.None? || s.fileError.value == "")
  }

  /** `validateFile(file)`: the state it leaves and its answer. A missing file
      changes nothing; a name with an extension stores the renamed file before
      the type and size are looked at. */
  function Validated(s: FormState, file: Option<VideoFile>): (r: (FormState, bool))
    ensures r.0.(videoFile := s.videoFile, fileError := s.fileError) == s
    ensures r.1 ==> file.Some? && r.0.fileError.None?
    ensures file.Some? && !r.1 ==> r.0.fileError.Some?
  {
    if file.None? then (s, false)
    else
      var f := file.value;
      var stored := if '.' in f.name then s.(videoFile := Some(Renamed(f))) else s;
      (stored.(fileError := Problem(f)), Problem(f).None?)
  }

  /** `handleChange(e)`. */
  function Changed(s: FormState, change: Change): (r: FormState)
    ensures r.loading == s.loading && r.error == s.error && r.success == s.success
    ensures !change.TitleChanged? ==> r.title == s.title
    ensures !change.BankChanged? ==> r.bank == s.bank
    ensures change.FileChosen? && r.videoFile.Some? ==>
      change.files != [] && r.videoFile == Some(change.files[0]) && Problem(change.files[0]).None?
  {
    match change
    case TitleChanged(v) => s.(title := v)
    case BankChanged(v) => s.(bank := v)
    case FileChosen(files) =>
      if files == [] then s.(inputFiles := files, videoFile := None)
      else
        var (checked, ok) := Validated(s.(inputFiles := files), Some(files[0]));
        if ok then checked.(videoFile := Some(files[0]))
        else checked.(inputFiles := [], videoFile := None)
  }

  /** `handleSubmit(e)`: the upload gets the title, bank and file of `s`, the
      state the handler started from. */
  function Submitted(s: FormState, upload: Payload -> UploadOutcome): (r: FormState)
    ensures !r.loading
    ensures r.success ==> r.error.None? && r.title == "" && r.bank == "" && r.videoFile.None?
    ensures r.error.Some? ==> !r.success && r.title == s.title && r.bank == s.bank
  {
    var started := s.(loading := true, error := None, success := false);
    var (checked, ok) := Validated(started, s.videoFile);
    if !ok then checked.(loading := false)
    else
      match upload(Payload(s.title, s.bank, s.videoFile.value))
      case Uploaded => checked.(success := true, title := "", bank := "", videoFile := None, loading := false)
      case UploadFailed(m) => checked.(error := Some(m), loading := false)
  }

  class Form {
    var title: string
    var bank: string
    var videoFile: Option<VideoFile>
    var fileError: Option<string>
    var loading: bool
    var error: Option<string>
    var success: bool
    var inputFiles: seq<VideoFile>

    function State(): FormState
      reads this
    {
      FormState(title, bank, videoFile, fileError, loading, error, success, inputFiles)
    }

    constructor ()
      ensures State() == FormState("", "", None, None, false, None, false, [])
    {
      title, bank, videoFile, fileError := "", "", None, None;
      loading, error, success, inputFiles := false, None, false, [];
    }

    method ValidateFile(file: Option<VideoFile>) returns (ok: bool)
      modifies this
      ensures (State(), ok) == Validated(old(State()), file)
    {
      if file.None? {
        return false;
      }
      var f := file.value;
      if LastIndexOf(f.name, '.') == -1 {
        fileError := Some(NoExtension);
        return false;
      }
      videoFile := Some(Renamed(f));
      if f.mimeType !in ValidVideoTypes {
        fileError := Some(UnsupportedFormat);
        return false;
      }
      if f.size > MaxSize {
        fileError := Some(TooLarge);
        return false;
      }
      fileError := None;
      return true;
    }

    method HandleChange(change: Change)
      modifies this
      ensures State() == Changed(old(State()), change)
    {
      match change
      case TitleChanged(value) =>
        title := value;
      case BankChanged(value) =>
        bank := value;
      case FileChosen(files) =>
        inputFiles := files;
        if files != [] {
          var ok := ValidateFile(Some(files[0]));
          if ok {
            videoFile := Some(files[0]);
          } else {
            inputFiles := [];
            videoFile := None;
          }
        } else {
          videoFile := None;
        }
    }

    method HandleSubmit(upload: Payload -> UploadOutcome)
      modifies this
      ensures State() == Submitted(old(State()), upload)
    {
      var submittedTitle, submittedBank, file := title, bank, videoFile;
      loading := true;
      error := None;
      success := false;
      ghost var started := State();
      assert started == old(State()).(loading := true, error := None, success := false);
      var ok := ValidateFile(file);
      ghost var checked := State();
      assert (checked, ok) == Validated(started, file);
      if !ok {
        loading := false;
        return;
      }
      var outcome := upload(Payload(submittedTitle, submittedBank, file.value));
      if outcome.Uploaded? {
        success := true;
        title, bank, videoFile := "", "", None;
      } else {
        error := Some(outcome.message);
      }
      loading := false;
    }
  }

  // ---------------------------------------------------------------------------
  // Properties of the handlers

  /** `validateFile` answers true exactly for a present file that passes every
      rule, and then clears the message; otherwise the message is the first
      rule broken. */
  lemma ValidatedVerdict(s: FormState, file: Option<VideoFile>)
    ensures Validated(s, file).1 <==> file.Some? && Problem(file.value).None?
    ensures file.Some? ==> Validated(s, file).0.fileError == Problem(file.value)
  {
  }

  /** A missing file is refused without a message and without any change. */
  lemma MissingFileRefusedSilently(s: FormState)
    ensures Validated(s, None) == (s, false)
  {
  }

  /** Once the name has an extension, the renamed file (same type and size) is
      stored, whatever the verdict; nothing but the file and the message changes. */
  lemma ValidatedStoresRenamed(s: FormState, f: VideoFile)
    requires '.' in f.name
    ensures var t := Validated(s, Some(f)).0;
      && t.videoFile == Some(Renamed(f))
      && t.videoFile.value.mimeType == f.mimeType
      && t.(videoFile := s.videoFile, fileError := s.fileError) == s
  {
  }

  /** A chosen file that passes is stored as chosen and stays in the input. */
  lemma ChosenFileKept(s: FormState, files: seq<VideoFile>)
    requires files != [] && Problem(files[0]).None?
    ensures var t := Changed(s, FileChosen(files));
      t.videoFile == Some(files[0]) && t.inputFiles == files && t.fileError == None
      && t.title == s.title && t.bank == s.bank
  {
  }

  /** The cleaned name does not survive `handleChange`: a passing file whose
      name has interior dots is stored under its original name. */
  lemma CleanedNameLost(s: FormState, files: seq<VideoFile>)
    requires files != [] && Problem(files[0]).None? && DotCount(files[0].name) > 1
    ensures Changed(s, FileChosen(files)).videoFile.value.name != CleanName(files[0].name)
  {
    CleanNameFixedIff(files[0].name);
  }

  /** Cancelling the file dialog (an empty file list) clears the stored file
      and the input and keeps everything else, the message of an earlier
      refusal included. */
  lemma FileDialogCancelled(s: FormState)
    ensures var t := Changed(s, FileChosen([]));
      && t.videoFile == None && t.inputFiles == []
      && t.(videoFile := s.videoFile, inputFiles := s.inputFiles) == s
  {
  }

  /** Validating a chosen file while nothing is loading enables the submit
      button exactly when the file passes every rule. */
  lemma ValidatedEnables(s: FormState, f: VideoFile)
    requires !s.loading
    ensures SubmitEnabled(Validated(s, Some(f)).0) <==> Problem(f).None?
  {
  }

  /** A chosen file that fails empties the stored file and the input, shows the
      rule it broke, and disables the submit button. */
  lemma ChosenFileRefused(s: FormState, files: seq<VideoFile>)
    requires files != [] && Problem(files[0]).Some?
    ensures var t := Changed(s, FileChosen(files));
      && t.videoFile == None && t.inputFiles == [] && t.fileError == Problem(files[0])
      && !SubmitEnabled(t)
      && t.title == s.title && t.bank == s.bank
  {
  }

  /** Text inputs store their value as typed and touch nothing else. */
  lemma TextChangesStoreValue(s: FormState, v: string)
    ensures Changed(s, TitleChanged(v)) == s.(title := v)
    ensures Changed(s, BankChanged(v)) == s.(bank := v)
  {
  }

  /** Submitting without a file that passes returns before the upload: the
      outcome does not depend on the upload, and loading ends false. */
  lemma SubmitWithoutValidFile(s: FormState, u1: Payload -> UploadOutcome, u2: Payload -> UploadOutcome)
    requires s.videoFile.None? || Problem(s.videoFile.value).Some?
    ensures Submitted(s, u1) == Submitted(s, u2)
    ensures var t := Submitted(s, u1); !t.loading && !t.success && t.error == None
  {
  }

  /** The upload receives the title, bank and file the form held when submitted:
      two uploads that answer that payload alike give the same outcome. */
  lemma SubmitSendsHeldPayload(s: FormState, u1: Payload -> UploadOutcome, u2: Payload -> UploadOutcome)
    requires s.videoFile.Some?
    requires u1(Payload(s.title, s.bank, s.videoFile.value)) == u2(Payload(s.title, s.bank, s.videoFile.value))
    ensures Submitted(s, u1) == Submitted(s, u2)
  {
  }

  /** A successful upload empties title, bank and file and reports success. */
  lemma SubmitSuccessResets(s: FormState, upload: Payload -> UploadOutcome)
    requires s.videoFile.Some? && Problem(s.videoFile.value).None?
    requires upload(Payload(s.title, s.bank, s.videoFile.value)).Uploaded?
    ensures var t := Submitted(s, upload);
      t.title == "" && t.bank == "" && t.videoFile == None
      && t.success && !t.loading && t.error == None && t.fileError == None
  {
  }

  /** A failed upload shows its message and keeps the renamed file. */
  lemma SubmitFailureReports(s: FormState, upload: Payload -> UploadOutcome, message: string)
    requires s.videoFile.Some? && Problem(s.videoFile.value).None?
    requires upload(Payload(s.title, s.bank, s.videoFile.value)) == UploadFailed(message)
    ensures var t := Submitted(s, upload);
      t.error == Some(message) && !t.success && !t.loading
      && t.title == s.title && t.bank == s.bank
      && t.videoFile == Some(Renamed(s.videoFile.value))
  {
  }
}
