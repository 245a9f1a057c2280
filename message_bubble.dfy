/**
 * The pure helpers of the chat message bubble: the `m:ss` rendering of an
 * audio duration, the file-extension and file-icon lookup, and the choice of
 * how a message's content is shown (audio player, file card or plain text).
 */
module MessageBubble {
  import opened Wrappers
  import opened Text

  /** `formatDuration(milliseconds)`: whole minutes, a colon, and the remaining seconds padded to two digits. */
  function FormatDuration(milliseconds: nat): string {
    var seconds := milliseconds / 1000;
    var minutes := seconds / 60;
    var remainingSeconds := seconds % 60;
    NatToString(minutes) + ":" + PadStart2(NatToString(remainingSeconds))
  }

  /**
   * Reads an `m:ss` clock label back into a number of seconds: the inverse
   * of the two formatters, used to state what their labels mean.
   */
  function ParseClock(clock: string): Option<nat> {
    var parts := Split(clock, ':');
    if |parts| != 2 || parts[0] == [] || !AllDigits(parts[0]) || |parts[1]| != 2 || !AllDigits(parts[1]) then None
    else if DigitsValue(parts[1]) >= 60 then None
    else Some(DigitsValue(parts[0]) * 60 + DigitsValue(parts[1]))
  }

  lemma {:induction false} ShortNatToString(n: nat)
    requires n < 100
    ensures |NatToString(n)| == if n < 10 then 1 else 2
  {
  }

  /** The seconds field of a clock label: always two digits, worth less than 60. */
  lemma {:induction false} SecondsField(secs: nat)
    requires secs < 60
    ensures var p := PadStart2(NatToString(secs));
      |p| == 2 && AllDigits(p) && DigitsValue(p) == secs && ':' !in p
  {
    ShortNatToString(secs);
    DigitsValueOfNatToString(secs);
    var d := NatToString(secs);
    var p := PadStart2(d);
    if |d| == 1 {
      assert p == "0" + d;
      assert p[..1] == "0";
      assert DigitsValue("0") == 0;
      assert DigitsValue(p) == d[0] as int - '0' as int;
      assert DigitsValue(d) == d[0] as int - '0' as int by {
        assert d[..0] == [];
      }
    }
  }

  /** A label built from a minutes count and a seconds count below 60 reads back as the total. */
  lemma {:induction false} ClockLabelReadsBack(minutes: nat, secs: nat)
    requires secs < 60
    ensures ParseClock(NatToString(minutes) + ":" + PadStart2(NatToString(secs))) == Some(minutes * 60 + secs)
  {
    var m := NatToString(minutes);
    var p := PadStart2(NatToString(secs));
    SecondsField(secs);
    DigitsValueOfNatToString(minutes);
    assert Join([m, p], ':') == m + ":" + p;
    SplitJoin([m, p], ':');
  }

  /** The label of a duration stands for exactly its whole seconds: nothing is lost but the sub-second part. */
  lemma {:induction false} FormatDurationReadsBack(milliseconds: nat)
    ensures ParseClock(FormatDuration(milliseconds)) == Some(milliseconds / 1000)
  {
    var seconds := milliseconds / 1000;
    ClockLabelReadsBack(seconds / 60, seconds % 60);
  }

  /** The seconds field of `FormatDuration` is the last two characters: two digits, worth `seconds mod 60`. */
  lemma {:induction false} FormatDurationSecondsField(milliseconds: nat)
    ensures var clock := FormatDuration(milliseconds);
      |clock| >= 4 && clock[|clock| - 3] == ':' &&
      AllDigits(clock[|clock| - 2..]) && DigitsValue(clock[|clock| - 2..]) == (milliseconds / 1000) % 60 < 60
  {
    var seconds := milliseconds / 1000;
    SecondsField(seconds % 60);
    var m := NatToString(seconds / 60);
    var p := PadStart2(NatToString(seconds % 60));
    var clock := FormatDuration(milliseconds);
    assert clock == m + ":" + p;
    assert |clock| == |m| + 3;
    assert clock[|clock| - 3] == ':';
    assert clock[|clock| - 2..] == p;
  }

  /** Sub-second remainders are ignored. */
  lemma {:induction false} FormatDurationIgnoresMilliseconds(seconds: nat, rest: nat)
    requires rest < 1000
    ensures FormatDuration(1000 * seconds + rest) == FormatDuration(1000 * seconds)
  {
    assert (1000 * seconds + rest) / 1000 == seconds;
    assert (1000 * seconds) / 1000 == seconds;
  }

  /** `getFileExtension(fileName)`: the lower-cased text after the last '.'. */
  function GetFileExtension(fileName: string): string {
    var popped := Last(Split(fileName, '.'));
    // `pop()` never yields `undefined` here, and `'' || ''` is `''`
    Lower(popped)
  }

  /**
   * The extension is the lower-cased tail after the last '.': the whole name
   * when it has no '.', and empty when the name ends in '.'.
   */
  lemma {:induction false} FileExtensionIsTail(fileName: string)
    ensures var e := GetFileExtension(fileName);
      |e| <= |fileName| && e == Lower(fileName[|fileName| - |e|..]) && '.' !in e &&
      (|e| == |fileName| || fileName[|fileName| - |e| - 1] == '.')
    ensures '.' !in fileName ==> GetFileExtension(fileName) == Lower(fileName)
    ensures |fileName| > 0 && fileName[|fileName| - 1] == '.' ==> GetFileExtension(fileName) == ""
  {
    var w := Last(Split(fileName, '.'));
    LastPieceIsTail(fileName, '.');
    var e := Lower(w);
    assert e == GetFileExtension(fileName);
    forall i | 0 <= i < |e|
      ensures e[i] != '.'
    {
      assert w[i] in w;
    }
    if '.' !in fileName {
      SplitFree(fileName, '.');
    }
  }

  /** The extension does not depend on letter case. */
  lemma {:induction false} FileExtensionOfLower(fileName: string)
    ensures GetFileExtension(Lower(fileName)) == GetFileExtension(fileName)
    ensures IsLowerCase(GetFileExtension(fileName))
  {
    SplitLower(fileName, '.');
    var pieces := Split(fileName, '.');
    LowerIsLowerCase(Last(pieces));
  }

  /** `getFileIcon`'s switch on the extension. */
  function IconForExtension(extension: string): string {
    if extension == "pdf" then "document-text"
    else if extension == "doc" || extension == "docx" then "document"
    else if extension == "xls" || extension == "xlsx" then "grid"
    else if extension == "ppt" || extension == "pptx" then "easel"
    else if extension == "txt" then "text"
    else if extension == "jpg" || extension == "jpeg" || extension == "png" || extension == "gif" then "image"
    else if extension == "mp4" || extension == "avi" || extension == "mov" then "videocam"
    else if extension == "mp3" || extension == "wav" || extension == "m4a" then "musical-notes"
    else if extension == "zip" || extension == "rar" then "archive"
    else "document"
  }

  /** `getFileIcon(fileName)`. */
  function GetFileIcon(fileName: string): string {
    IconForExtension(GetFileExtension(fileName))
  }

  /** The extensions with an icon of their own. */
  const ListedExtensions: set<string> := {
    "pdf", "xls", "xlsx", "ppt", "pptx", "txt", "jpg", "jpeg", "png", "gif",
    "mp4", "avi", "mov", "mp3", "wav", "m4a", "zip", "rar"
  }

  /**
   * The generic 'document' icon goes to exactly the extensions without an
   * icon of their own; 'doc' and 'docx' are among them.
   */
  lemma GenericIconIffUnlisted(extension: string)
    ensures IconForExtension(extension) == "document" <==> extension !in ListedExtensions
    ensures "doc" !in ListedExtensions && "docx" !in ListedExtensions
  {
  }

  /** Names that differ only in letter case get the same icon. */
  lemma {:induction false} FileIconCaseInsensitive(a: string, b: string)
    requires Lower(a) == Lower(b)
    ensures GetFileIcon(a) == GetFileIcon(b)
  {
    FileExtensionOfLower(a);
    FileExtensionOfLower(b);
  }

  /** A chat message as the bubble receives it; optional fields may be missing. */
  datatype Message = Message(
    id: string,
    text: string,
    isMine: bool,
    time: string,
    kind: Option<string>,
    audioUri: Option<string>,
    audioDuration: Option<nat>,
    fileUri: Option<string>,
    fileName: Option<string>,
    fileSize: Option<nat>)

  /** What `renderMessageContent` shows. */
  datatype Content =
    | AudioContent(durationLabel: string)
    | FileContent(icon: string, fileName: string)
    | TextContent(text: string)

  /** `renderMessageContent()`: audio player, file card or plain text, tested in that order. */
  function RenderMessageContent(m: Message): (c: Content)
    ensures c.AudioContent? <==> m.kind == Some("audio") && Truthy(m.audioUri)
    ensures c.FileContent? <==> m.kind == Some("file") && Truthy(m.fileUri) && Truthy(m.fileName)
    ensures c.AudioContent? ==> c.durationLabel == FormatDuration(m.audioDuration.GetOr(0))
    ensures c.FileContent? ==> c.fileName == m.fileName.value && c.icon == GetFileIcon(m.fileName.value)
    ensures c.TextContent? ==> c.text == m.text
  {
    if m.kind == Some("audio") && Truthy(m.audioUri) then
      AudioContent(FormatDuration(m.audioDuration.GetOr(0)))
    else if m.kind == Some("file") && Truthy(m.fileUri) && Truthy(m.fileName) then
      FileContent(GetFileIcon(m.fileName.value), m.fileName.value)
    else
      TextContent(m.text)
  }
}
