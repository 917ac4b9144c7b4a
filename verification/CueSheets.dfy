/** Cue sheets embedded in a tag: reading lines, parsing tracks, song durations
    (`CCueDocument`, and the durations of `CFileItem::LoadTracksFromCueDocument`). */
module CueSheets {
  import opened Basics

  // ---- Text ----

  predicate IsSpace(c: char) {
    c == ' ' || '\t' <= c <= '\r'
  }

  predicate IsDigit(c: char) {
    '0' <= c <= '9'
  }

  function TrimLeft(s: string): (r: string)
    ensures |r| <= |s|
  {
    if s != "" && IsSpace(s[0]) then TrimLeft(s[1..]) else s
  }

  function TrimRight(s: string): (r: string)
    ensures |r| <= |s|
  {
    if s != "" && IsSpace(s[|s| - 1]) then TrimRight(s[..|s| - 1]) else s
  }

  function Trim(s: string): string {
    TrimRight(TrimLeft(s))
  }

  predicate StartsWithNoCase(s: string, prefix: string) {
    |prefix| <= |s| && forall i | 0 <= i < |prefix| :: Lower(s[i]) == Lower(prefix[i])
  }

  /** The text begins with the same letters. */
  lemma StartsMeans(s: string, prefix: string)
    ensures StartsWithNoCase(s, prefix) <==> |prefix| <= |s| && SameLetters(s[..|prefix|], prefix)
  {
    if |prefix| <= |s| {
      forall i | 0 <= i < |prefix|
        ensures Lower(s[i]) == Lower(prefix[i]) <==> SameLetter(s[..|prefix|][i], prefix[i])
      {
        LowerMeans(s[i], prefix[i]);
      }
    }
  }

  function DropDigits(s: string): string {
    if s != "" && IsDigit(s[0]) then DropDigits(s[1..]) else s
  }

  /** The position of a character, from `from` on. */
  function Find(s: string, c: char, from: nat): (r: Option<nat>)
    requires from <= |s|
    ensures r.Some? ==> from <= r.value < |s| && s[r.value] == c
    decreases |s| - from
  {
    if from == |s| then None else if s[from] == c then Some(from) else Find(s, c, from + 1)
  }

  /** The pieces between the separators; nothing at all for the empty text. */
  function Split(s: string, c: char): seq<string> {
    if s == "" then [] else Pieces(s, c)
  }

  function Pieces(s: string, c: char): seq<string> {
    var next := Find(s, c, 0);
    if next.None? then [s] else [s[..next.value]] + Pieces(s[next.value + 1..], c)
  }

  function Digits(s: string, value: int): int {
    if s != "" && IsDigit(s[0]) then Digits(s[1..], 10 * value + (s[0] - '0') as int) else value
  }

  /** The number at the start of a text, 0 if there is none. */
  function Atoi(s: string): int {
    var t := TrimLeft(s);
    if t != "" && t[0] == '-' then -Digits(t[1..], 0)
    else if t != "" && t[0] == '+' then Digits(t[1..], 0)
    else Digits(t, 0)
  }

  /** The text in quotes, or the whole text trimmed. */
  function ExtractInfo(s: string): string {
    var left := Find(s, '"', 0);
    if left.Some? && Find(s, '"', left.value + 1).Some? then s[left.value + 1..Find(s, '"', left.value + 1).value]
    else Trim(s)
  }

  /** -1 when there is no number. */
  function ExtractNumericInfo(s: string): int {
    var t := TrimLeft(s);
    if t == "" || !IsDigit(t[0]) then -1 else Atoi(t)
  }

  /** Minutes, seconds and frames, 75 frames a second; -1 when malformed. */
  method ExtractTimeFromIndex(index: string) returns (time: int)
    requires |index| >= 5
    ensures time == IndexTime(index)
  {
    var numberTime := TrimLeft(index[5..]);
    while numberTime != "" && IsDigit(numberTime[0])
      invariant DropDigits(numberTime) == DropDigits(TrimLeft(index[5..]))
      decreases |numberTime|
    {
      numberTime := numberTime[1..];
    }
    numberTime := TrimLeft(numberTime);
    var pieces := Split(numberTime, ':');
    if |pieces| != 3 {
      return -1;
    }
    time := (Atoi(pieces[0]) * 60 + Atoi(pieces[1])) * 75 + Atoi(pieces[2]);
  }

  function IndexTime(index: string): int
    requires |index| >= 5
  {
    var pieces := Split(TrimLeft(DropDigits(TrimLeft(index[5..]))), ':');
    if |pieces| != 3 then -1 else (Atoi(pieces[0]) * 60 + Atoi(pieces[1])) * 75 + Atoi(pieces[2])
  }

  // ---- Lines ----

  predicate IsBreak(c: char) {
    c == '\r' || c == '\n'
  }

  /** The lines that a reader yields: those that end in a line break and are not blank, trimmed. */
  function Lines(data: string, line: string := ""): seq<string> {
    if data == "" then []
    else if IsBreak(data[0]) then
      var trimmed := Trim(line);
      (if trimmed == "" then [] else [trimmed]) + Lines(data[1..], "")
    else Lines(data[1..], line + [data[0]])
  }

  class BufferReader {
    const data: string
    var pos: nat

    constructor (data: string)
      ensures this.data == data && pos == 0
    {
      this.data, pos := data, 0;
    }

    ghost function Rest(): seq<string>
      reads this
      requires pos <= |data|
    {
      Lines(data[pos..])
    }

    method ReadLine() returns (r: Option<string>)
      requires pos <= |data|
      modifies this
      ensures old(pos) <= pos <= |data| && (r.Some? ==> old(pos) < pos)
      ensures old(Rest()) == if r.Some? then [r.value] + Rest() else []
    {
      var line := "";
      while pos < |data|
        invariant old(pos) <= pos <= |data|
        invariant old(Rest()) == Lines(data[pos..], line)
      {
        var ch := data[pos];
        pos := pos + 1;
        assert data[pos - 1..][1..] == data[pos..];
        if IsBreak(ch) {
          line := Trim(line);
          if line != "" {
            return Some(line);
          }
        } else {
          line := line + [ch];
        }
      }
      r := None;
    }
  }

  /** Whatever follows the last line break is lost. */
  lemma {:induction false} LastLineNeedsABreak(data: string, tail: string, line: string)
    requires data == "" || IsBreak(data[|data| - 1])
    requires forall i | 0 <= i < |tail| :: !IsBreak(tail[i])
    requires data == "" ==> line == ""
    ensures Lines(data + tail, line) == Lines(data, line)
  {
    if data == "" {
      assert data + tail == tail;
      NoBreakNoLine(tail, line);
    } else {
      assert (data + tail)[1..] == data[1..] + tail;
      LastLineNeedsABreak(data[1..], tail, if IsBreak(data[0]) then "" else line + [data[0]]);
    }
  }

  lemma {:induction false} NoBreakNoLine(tail: string, line: string)
    requires forall i | 0 <= i < |tail| :: !IsBreak(tail[i])
    ensures Lines(tail, line) == []
  {
    if tail != "" {
      NoBreakNoLine(tail[1..], line + [tail[0]]);
    }
  }

  lemma {:induction false} TailLine(tail: string, b: char, line: string)
    requires IsBreak(b) && forall i | 0 <= i < |tail| :: !IsBreak(tail[i])
    ensures Lines(tail + [b], line) == if Trim(line + tail) == "" then [] else [Trim(line + tail)]
  {
    if tail == "" {
      assert (tail + [b])[1..] == "" && line + tail == line;
    } else {
      assert (tail + [b])[1..] == tail[1..] + [b];
      assert (line + [tail[0]]) + tail[1..] == line + tail;
      TailLine(tail[1..], b, line + [tail[0]]);
    }
  }

  /** With a line break behind it the same text is one more line, unless it is blank. */
  lemma {:induction false} BreakEndsLine(data: string, tail: string, b: char, line: string)
    requires data == "" || IsBreak(data[|data| - 1])
    requires IsBreak(b) && forall i | 0 <= i < |tail| :: !IsBreak(tail[i])
    requires data == "" ==> line == ""
    ensures Lines(data + tail + [b], line) == Lines(data, line) + if Trim(tail) == "" then [] else [Trim(tail)]
  {
    if data == "" {
      assert data + tail + [b] == tail + [b] && line + tail == tail;
      TailLine(tail, b, line);
    } else {
      var text, rest := data + tail + [b], data[1..];
      assert text[0] == data[0] && text[1..] == rest + tail + [b];
      if IsBreak(data[0]) {
        BreakEndsLine(rest, tail, b, "");
      } else {
        BreakEndsLine(rest, tail, b, line + [data[0]]);
      }
    }
  }

  // ---- Tracks ----

  datatype Track = Track(artist: string, title: string, file: string, number: int, start: int, end: int)

  datatype Sheet = Sheet(artist: string, album: string, genre: string, year: int, discNumber: int,
                         tracks: seq<Track>, file: string, fileChanged: bool, files: nat)

  const NEW_SHEET := Sheet("", "", "", 0, 0, [], "", false, 0)

  function SetLast(tracks: seq<Track>, t: Track): seq<Track>
    requires tracks != []
  {
    tracks[|tracks| - 1 := t]
  }

  /** The sheet after an INDEX 01 line; None where parsing fails. */
  function AfterIndex(sheet: Sheet, line: string): Option<Sheet>
    requires |line| >= 5
  {
    var time := IndexTime(line);
    var n := |sheet.tracks|;
    if sheet.fileChanged || time == -1 then None
    else if n == 0 then Some(sheet)
    else
      var begun := SetLast(sheet.tracks, sheet.tracks[n - 1].(start := time));
      Some(sheet.(tracks := if n >= 2 && sheet.tracks[n - 2].file == sheet.file
                            then begun[n - 2 := begun[n - 2].(end := time)] else begun))
  }

  /** A title is that of the last track, or of the album before the first. */
  function WithTitle(sheet: Sheet, title: string): Sheet {
    var n := |sheet.tracks|;
    if n == 0 then sheet.(album := title)
    else sheet.(tracks := SetLast(sheet.tracks, sheet.tracks[n - 1].(title := title)))
  }

  /** And so is an artist. */
  function WithArtist(sheet: Sheet, artist: string): Sheet {
    var n := |sheet.tracks|;
    if n == 0 then sheet.(artist := artist)
    else sheet.(tracks := SetLast(sheet.tracks, sheet.tracks[n - 1].(artist := artist)))
  }

  /** A new track, in the open file. */
  function WithTrack(sheet: Sheet, number: int): Sheet {
    var track := Track("", "", sheet.file, if number > 0 then number else |sheet.tracks| + 1, 0, 0);
    sheet.(tracks := sheet.tracks + [track], fileChanged := false)
  }

  /** A line that is not about a track. */
  function AfterOtherLine(sheet: Sheet, line: string): Sheet {
    if StartsWithNoCase(line, "REM DISCNUMBER") then
      var number := ExtractNumericInfo(line[14..]);
      if number > 0 then sheet.(discNumber := number) else sheet
    else if StartsWithNoCase(line, "FILE") then
      sheet.(files := sheet.files + 1, fileChanged := sheet.fileChanged || sheet.file != "",
             file := ExtractInfo(line[4..]))
    else if StartsWithNoCase(line, "REM DATE") then
      var year := ExtractNumericInfo(line[8..]);
      if year > 0 then sheet.(year := year) else sheet
    else if StartsWithNoCase(line, "REM GENRE") then
      sheet.(genre := ExtractInfo(line[9..]))
    else sheet
  }

  /** The sheet after one line; None where parsing fails. */
  function AfterLine(sheet: Sheet, line: string): Option<Sheet> {
    if StartsWithNoCase(line, "INDEX 01") then AfterIndex(sheet, line)
    else if StartsWithNoCase(line, "TITLE") then Some(WithTitle(sheet, ExtractInfo(line[5..])))
    else if StartsWithNoCase(line, "PERFORMER") then Some(WithArtist(sheet, ExtractInfo(line[9..])))
    else if StartsWithNoCase(line, "TRACK") then Some(WithTrack(sheet, ExtractNumericInfo(line[5..])))
    else Some(AfterOtherLine(sheet, line))
  }

  function AfterLines(sheet: Sheet, lines: seq<string>): Option<Sheet>
    decreases |lines|
  {
    if lines == [] then Some(sheet)
    else
      match AfterLine(sheet, lines[0])
      case None => None
      case Some(next) => AfterLines(next, lines[1..])
  }

  /** The last track runs to the end of its file. */
  function Finished(tracks: seq<Track>): seq<Track> {
    if tracks == [] then [] else SetLast(tracks, tracks[|tracks| - 1].(end := 0))
  }

  function Moved(t: Track, oldFile: string, newFile: string): Track {
    if t.file == oldFile then t.(file := newFile) else t
  }

  class CueDocument {
    var sheet: Sheet
    var oneFilePerTrack: bool

    constructor ()
      ensures sheet == NEW_SHEET && !oneFilePerTrack
    {
      sheet, oneFilePerTrack := NEW_SHEET, false;
    }

    /** One line of the loop of `Parse`; false where it gives up. */
    method ParseLine(line: string) returns (ok: bool)
      modifies `sheet
      ensures ok <==> AfterLine(old(sheet), line).Some?
      ensures ok ==> sheet == AfterLine(old(sheet), line).value
    {
      var total := |sheet.tracks| - 1;
      if StartsWithNoCase(line, "INDEX 01") {
        if sheet.fileChanged {
          return false;
        }
        var time := ExtractTimeFromIndex(line);
        if time == -1 {
          return false;
        }
        var tracks := sheet.tracks;
        if total > 0 && tracks[total - 1].file == sheet.file {
          tracks := tracks[total - 1 := tracks[total - 1].(end := time)];
        }
        if total >= 0 {
          tracks := tracks[total := tracks[total].(start := time)];
        }
        assert total > 0 ==> tracks == AfterIndex(sheet, line).value.tracks;
        sheet := sheet.(tracks := tracks);
      } else if StartsWithNoCase(line, "TITLE") {
        var title := ExtractInfo(line[5..]);
        if total == -1 {
          sheet := sheet.(album := title);
        } else {
          sheet := sheet.(tracks := sheet.tracks[total := sheet.tracks[total].(title := title)]);
        }
      } else if StartsWithNoCase(line, "PERFORMER") {
        var artist := ExtractInfo(line[9..]);
        if total == -1 {
          sheet := sheet.(artist := artist);
        } else {
          sheet := sheet.(tracks := sheet.tracks[total := sheet.tracks[total].(artist := artist)]);
        }
      } else if StartsWithNoCase(line, "TRACK") {
        var number := ExtractNumericInfo(line[5..]);
        total := total + 1;
        if number <= 0 {
          number := total + 1;
        }
        sheet := sheet.(tracks := sheet.tracks + [Track("", "", sheet.file, number, 0, 0)], fileChanged := false);
      } else if StartsWithNoCase(line, "REM DISCNUMBER") {
        var number := ExtractNumericInfo(line[14..]);
        if number > 0 {
          sheet := sheet.(discNumber := number);
        }
      } else if StartsWithNoCase(line, "FILE") {
        sheet := sheet.(files := sheet.files + 1);
        if sheet.file != "" {
          sheet := sheet.(fileChanged := true);
        }
        sheet := sheet.(file := ExtractInfo(line[4..]));
      } else if StartsWithNoCase(line, "REM DATE") {
        var year := ExtractNumericInfo(line[8..]);
        if year > 0 {
          sheet := sheet.(year := year);
        }
      } else if StartsWithNoCase(line, "REM GENRE") {
        sheet := sheet.(genre := ExtractInfo(line[9..]));
      }
      ok := true;
    }

    method ParseTag(content: string) returns (ok: bool)
      modifies this
      ensures ok ==> content != "" && AfterLines(NEW_SHEET, Lines(content)).Some?
      ensures ok ==> (var end := AfterLines(NEW_SHEET, Lines(content)).value;
                      sheet == end.(tracks := Finished(end.tracks)) && sheet.tracks != []
                      && oneFilePerTrack == (old(oneFilePerTrack) || |end.tracks| == end.files))
      ensures !ok ==> content == "" || AfterLines(NEW_SHEET, Lines(content)).None?
                      || AfterLines(NEW_SHEET, Lines(content)).value.tracks == []
    {
      sheet := NEW_SHEET;
      if content == "" {
        return false;
      }
      var reader := new BufferReader(content);
      assert content[0..] == content;
      var line := reader.ReadLine();
      while line.Some?
        invariant fresh(reader) && reader.pos <= |reader.data| && oneFilePerTrack == old(oneFilePerTrack)
        invariant AfterLines(NEW_SHEET, Lines(content))
                  == AfterLines(sheet, if line.Some? then [line.value] + reader.Rest() else [])
        decreases |reader.data| - reader.pos, line.Some?
      {
        ghost var rest := [line.value] + reader.Rest();
        assert rest[1..] == reader.Rest();
        var parsed := ParseLine(line.value);
        if !parsed {
          return false;
        }
        line := reader.ReadLine();
      }
      if sheet.tracks != [] {
        sheet := sheet.(tracks := Finished(sheet.tracks));
      }
      if |sheet.tracks| == sheet.files {
        oneFilePerTrack := true;
      }
      ok := sheet.tracks != [];
    }

    method UpdateMediaFile(oldFile: string, newFile: string)
      modifies `sheet
      ensures sheet == old(sheet).(tracks := sheet.tracks) && |sheet.tracks| == |old(sheet.tracks)|
      ensures forall i | 0 <= i < |sheet.tracks| :: sheet.tracks[i] == Moved(old(sheet.tracks[i]), oldFile, newFile)
    {
      var i := 0;
      while i < |sheet.tracks|
        invariant 0 <= i <= |sheet.tracks| == |old(sheet.tracks)| && sheet == old(sheet).(tracks := sheet.tracks)
        invariant forall j | 0 <= j < i :: sheet.tracks[j] == Moved(old(sheet.tracks[j]), oldFile, newFile)
        invariant forall j | i <= j < |sheet.tracks| :: sheet.tracks[j] == old(sheet.tracks[j])
      {
        if sheet.tracks[i].file == oldFile {
          sheet := sheet.(tracks := sheet.tracks[i := sheet.tracks[i].(file := newFile)]);
        }
        i := i + 1;
      }
    }

    /** The files of the tracks, each once. */
    method GetMediaFiles() returns (files: seq<string>)
      ensures forall i | 0 <= i < |sheet.tracks| :: sheet.tracks[i].file in files
    {
      files := [];
      var i := 0;
      while i < |sheet.tracks|
        invariant 0 <= i <= |sheet.tracks|
        invariant forall j | 0 <= j < i :: sheet.tracks[j].file in files
      {
        if sheet.tracks[i].file !in files {
          files := files + [sheet.tracks[i].file];
        }
        i := i + 1;
      }
    }

    /** All tracks belong to the file that carries the sheet. */
    method UseFile(path: string)
      modifies `sheet
      ensures |sheet.tracks| == |old(sheet.tracks)|
      ensures forall i | 0 <= i < |sheet.tracks| :: sheet.tracks[i] == old(sheet.tracks[i]).(file := path)
    {
      var files := GetMediaFiles();
      var k := 0;
      while k < |files|
        invariant 0 <= k <= |files| && |sheet.tracks| == |old(sheet.tracks)|
        invariant forall i | 0 <= i < |sheet.tracks| ::
                    sheet.tracks[i] == if old(sheet.tracks[i]).file in files[..k]
                                       then old(sheet.tracks[i]).(file := path)
                                       else old(sheet.tracks[i])
      {
        UpdateMediaFile(files[k], path);
        assert files[..k + 1] == files[..k] + [files[k]];
        k := k + 1;
      }
      assert files[..k] == files;
    }
  }

  // ---- Each track ends where the next one in its file begins ----

  /** Every TRACK line comes while a file with a name is open. */
  ghost predicate FilesNamed(sheet: Sheet, lines: seq<string>)
    decreases |lines|
  {
    lines != [] ==>
      && (IsTrackLine(lines[0]) ==> sheet.file != "")
      && (AfterLine(sheet, lines[0]).Some? ==> FilesNamed(AfterLine(sheet, lines[0]).value, lines[1..]))
  }

  predicate IsTrackLine(line: string) {
    StartsWithNoCase(line, "TRACK")
  }

  ghost predicate EndsMeetStarts(tracks: seq<Track>) {
    forall i | 0 <= i < |tracks| :: EndMeetsStart(tracks, i)
  }

  ghost predicate EndMeetsStart(tracks: seq<Track>, i: nat)
    requires i < |tracks|
  {
    tracks[i].end == if i + 1 < |tracks| && tracks[i + 1].file == tracks[i].file then tracks[i + 1].start else 0
  }

  /** The open file is that of the last track, unless a new one was opened since. */
  ghost predicate InStep(sheet: Sheet) {
    && EndsMeetStarts(sheet.tracks)
    && (forall i | 0 <= i < |sheet.tracks| :: sheet.tracks[i].file != "")
    && (sheet.tracks != [] && !sheet.fileChanged ==> sheet.file == sheet.tracks[|sheet.tracks| - 1].file)
  }

  lemma IndexKeepsStep(sheet: Sheet, line: string)
    requires |line| >= 5 && InStep(sheet) && AfterIndex(sheet, line).Some?
    ensures InStep(AfterIndex(sheet, line).value)
  {
    var tracks, next := sheet.tracks, AfterIndex(sheet, line).value.tracks;
    forall i | 0 <= i < |next|
      ensures next[i].file == tracks[i].file
      ensures EndMeetsStart(next, i)
    {
      assert EndMeetsStart(tracks, i);
    }
  }

  /** A new name for the last track changes no times. */
  lemma RenamingKeepsStep(sheet: Sheet, t: Track)
    requires InStep(sheet) && sheet.tracks != []
    requires t == sheet.tracks[|sheet.tracks| - 1].(artist := t.artist, title := t.title)
    ensures InStep(sheet.(tracks := SetLast(sheet.tracks, t)))
  {
    var tracks, next := sheet.tracks, SetLast(sheet.tracks, t);
    forall i | 0 <= i < |next|
      ensures next[i].file == tracks[i].file
      ensures EndMeetsStart(next, i)
    {
      assert EndMeetsStart(tracks, i);
    }
  }

  lemma TitleKeepsStep(sheet: Sheet, title: string)
    requires InStep(sheet)
    ensures InStep(WithTitle(sheet, title))
  {
    var n := |sheet.tracks|;
    if n > 0 { RenamingKeepsStep(sheet, sheet.tracks[n - 1].(title := title)); }
  }

  lemma ArtistKeepsStep(sheet: Sheet, artist: string)
    requires InStep(sheet)
    ensures InStep(WithArtist(sheet, artist))
  {
    var n := |sheet.tracks|;
    if n > 0 { RenamingKeepsStep(sheet, sheet.tracks[n - 1].(artist := artist)); }
  }

  lemma TrackKeepsStep(sheet: Sheet, number: int)
    requires InStep(sheet) && sheet.file != ""
    ensures InStep(WithTrack(sheet, number))
  {
    var tracks, next := sheet.tracks, WithTrack(sheet, number).tracks;
    forall i | 0 <= i < |next|
      ensures EndMeetsStart(next, i)
    {
      if i < |tracks| {
        assert EndMeetsStart(tracks, i);
      }
    }
  }

  lemma OtherLineKeepsStep(sheet: Sheet, line: string)
    requires InStep(sheet)
    ensures InStep(AfterOtherLine(sheet, line))
  {
    var next := AfterOtherLine(sheet, line);
    assert next.tracks == sheet.tracks;
    if sheet.tracks != [] && !next.fileChanged {
      var last := sheet.tracks[|sheet.tracks| - 1];
      assert last in sheet.tracks && next.file == sheet.file;
    }
  }

  lemma LineKeepsStep(sheet: Sheet, line: string)
    requires InStep(sheet) && AfterLine(sheet, line).Some? && (IsTrackLine(line) ==> sheet.file != "")
    ensures InStep(AfterLine(sheet, line).value)
  {
    if StartsWithNoCase(line, "INDEX 01") {
      IndexKeepsStep(sheet, line);
    } else if StartsWithNoCase(line, "TITLE") {
      TitleKeepsStep(sheet, ExtractInfo(line[5..]));
    } else if StartsWithNoCase(line, "PERFORMER") {
      ArtistKeepsStep(sheet, ExtractInfo(line[9..]));
    } else if StartsWithNoCase(line, "TRACK") {
      TrackKeepsStep(sheet, ExtractNumericInfo(line[5..]));
    } else {
      OtherLineKeepsStep(sheet, line);
    }
  }

  lemma {:induction false} LinesKeepStep(sheet: Sheet, lines: seq<string>)
    requires InStep(sheet) && AfterLines(sheet, lines).Some? && FilesNamed(sheet, lines)
    ensures InStep(AfterLines(sheet, lines).value)
    decreases |lines|
  {
    if lines != [] {
      LineKeepsStep(sheet, lines[0]);
      LinesKeepStep(AfterLine(sheet, lines[0]).value, lines[1..]);
    }
  }

  /** In every sheet that parses, a track ends where the next one in the same file starts, and at 0 otherwise. */
  lemma ParsedEndsMeetStarts(content: string)
    requires FilesNamed(NEW_SHEET, Lines(content)) && AfterLines(NEW_SHEET, Lines(content)).Some?
    ensures EndsMeetStarts(Finished(AfterLines(NEW_SHEET, Lines(content)).value.tracks))
  {
    LinesKeepStep(NEW_SHEET, Lines(content));
    var tracks := AfterLines(NEW_SHEET, Lines(content)).value.tracks;
    if tracks != [] {
      assert EndMeetsStart(tracks, |tracks| - 1);
      assert Finished(tracks) == tracks;
    }
  }

  /** What keeps ends and starts together when an INDEX 01 line comes. It matters whether the
      track before the last is of the open file, though the new time starts the last track. */
  predicate InStepFor(sheet: Sheet, time: int) {
    var n := |sheet.tracks|;
    n >= 2 ==>
      var last, before := sheet.tracks[n - 1], sheet.tracks[n - 2];
      if before.file == sheet.file then last.file == before.file || time == 0
      else last.file != before.file || last.start == time
  }

  /** An INDEX 01 line keeps ends and starts together exactly under that condition. */
  lemma IndexKeepsStepExactly(sheet: Sheet, line: string)
    requires |line| >= 5 && EndsMeetStarts(sheet.tracks) && AfterIndex(sheet, line).Some?
    ensures EndsMeetStarts(AfterIndex(sheet, line).value.tracks) <==> InStepFor(sheet, IndexTime(line))
  {
    var tracks, next, n := sheet.tracks, AfterIndex(sheet, line).value.tracks, |sheet.tracks|;
    assert forall i | 0 <= i < n :: next[i].file == tracks[i].file;
    forall i | 0 <= i < n && i != n - 2 ensures EndMeetsStart(next, i) {
      assert EndMeetsStart(tracks, i);
    }
    if n >= 2 {
      assert EndMeetsStart(tracks, n - 2);
      assert EndMeetsStart(next, n - 2) <==> InStepFor(sheet, IndexTime(line));
    }
  }

  const UNNAMED := "TRACK\n" + "TRACK\n" + "FILE x\n" + "INDEX 01 0:0:1\n"

  /** A sheet with tracks before its first file parses, and breaks this: the time becomes the
      start of the second track, but not the end of the first, which has the same, empty, file. */
  lemma UnnamedFileBreaksStep()
    ensures AfterLines(NEW_SHEET, Lines(UNNAMED)).Some?
    ensures !EndsMeetStarts(Finished(AfterLines(NEW_SHEET, Lines(UNNAMED)).value.tracks))
  {
    var first := NEW_SHEET.(tracks := [Track("", "", "", 1, 0, 0)]);
    var second := NEW_SHEET.(tracks := [Track("", "", "", 1, 0, 0), Track("", "", "", 2, 0, 0)]);
    var named := second.(files := 1, file := "x");
    var end := second.(files := 1, file := "x", tracks := [Track("", "", "", 1, 0, 0), Track("", "", "", 2, 1, 0)]);
    UnnamedLines();
    assert AfterLine(NEW_SHEET, "TRACK") == Some(first) by {
      TrackLine(NEW_SHEET);
      assert NEW_SHEET.tracks + [Track("", "", "", 1, 0, 0)] == first.tracks;
    }
    assert AfterLine(first, "TRACK") == Some(second) by {
      TrackLine(first);
      assert first.tracks + [Track("", "", "", 2, 0, 0)] == second.tracks;
    }
    assert AfterLine(second, "FILE x") == Some(named) by {
      FileLine(second);
    }
    assert AfterLine(named, "INDEX 01 0:0:1") == Some(end) by {
      IndexLine(named);
      assert SetLast(named.tracks, named.tracks[1].(start := 1)) == end.tracks;
    }
    FourLines(NEW_SHEET, first, second, named, end, "TRACK", "TRACK", "FILE x", "INDEX 01 0:0:1");
    assert !EndMeetsStart(end.tracks, 0) && Finished(end.tracks) == end.tracks;
  }

  lemma FourLines(s0: Sheet, s1: Sheet, s2: Sheet, s3: Sheet, s4: Sheet, a: string, b: string, c: string, d: string)
    requires AfterLine(s0, a) == Some(s1) && AfterLine(s1, b) == Some(s2)
    requires AfterLine(s2, c) == Some(s3) && AfterLine(s3, d) == Some(s4)
    ensures AfterLines(s0, [a, b, c, d]) == Some(s4)
  {
    assert [a, b, c, d][1..] == [b, c, d] && [b, c, d][1..] == [c, d] && [c, d][1..] == [d] && [d][1..] == [];
    assert AfterLines(s3, [d]) == Some(s4);
    assert AfterLines(s2, [c, d]) == Some(s4);
    assert AfterLines(s1, [b, c, d]) == Some(s4);
  }

  lemma TrackLine(sheet: Sheet)
    ensures AfterLine(sheet, "TRACK")
            == Some(sheet.(tracks := sheet.tracks + [Track("", "", sheet.file, |sheet.tracks| + 1, 0, 0)],
                           fileChanged := false))
  {
    var line := "TRACK";
    assert Lower(line[1]) != Lower("TITLE"[1]);
    assert !StartsWithNoCase(line, "TITLE") && StartsWithNoCase(line, "TRACK");
    assert line[5..] == "" && TrimLeft("") == "";
  }

  lemma FileLine(sheet: Sheet)
    requires sheet.file == ""
    ensures AfterLine(sheet, "FILE x") == Some(sheet.(files := sheet.files + 1, file := "x"))
  {
    var line := "FILE x";
    assert Lower(line[0]) != Lower("TITLE"[0]);
    assert !StartsWithNoCase(line, "TITLE") && !StartsWithNoCase(line, "TRACK") && StartsWithNoCase(line, "FILE");
    assert line[4..] == " x" && " x"[1..] == "x" && "x"[1..] == "";
    assert Find(" x", '"', 0).None?;
    assert TrimLeft(" x") == "x" && TrimRight("x") == "x";
  }

  lemma IndexLine(sheet: Sheet)
    requires !sheet.fileChanged && |sheet.tracks| == 2 && sheet.tracks[0].file != sheet.file
    ensures AfterLine(sheet, "INDEX 01 0:0:1")
            == Some(sheet.(tracks := SetLast(sheet.tracks, sheet.tracks[1].(start := 1))))
  {
    assert StartsWithNoCase("INDEX 01 0:0:1", "INDEX 01");
    IndexOne();
  }

  lemma IndexOne()
    ensures IndexTime("INDEX 01 0:0:1") == 1
  {
    assert "INDEX 01 0:0:1"[5..] == " 01 0:0:1";
    IndexText();
    IndexPieces();
    OneDigit("0");
    OneDigit("1");
  }

  lemma IndexText()
    ensures TrimLeft(DropDigits(TrimLeft(" 01 0:0:1"))) == "0:0:1"
  {
    assert " 01 0:0:1"[1..] == "01 0:0:1" && "01 0:0:1"[1..] == "1 0:0:1";
    assert "1 0:0:1"[1..] == " 0:0:1" && " 0:0:1"[1..] == "0:0:1";
    assert TrimLeft(" 01 0:0:1") == TrimLeft("01 0:0:1") == "01 0:0:1";
    assert DropDigits("01 0:0:1") == DropDigits("1 0:0:1") == DropDigits(" 0:0:1") == " 0:0:1";
    assert TrimLeft(" 0:0:1") == TrimLeft("0:0:1") == "0:0:1";
  }

  lemma IndexPieces()
    ensures Split("0:0:1", ':') == ["0", "0", "1"]
  {
    assert Find("1", ':', 0).None?;
    assert "0:1"[..1] == "0" && "0:1"[2..] == "1" && Find("0:1", ':', 0) == Some(1);
    assert Pieces("0:1", ':') == ["0"] + Pieces("1", ':');
    assert "0:0:1"[..1] == "0" && "0:0:1"[2..] == "0:1" && Find("0:0:1", ':', 0) == Some(1);
    assert Pieces("0:0:1", ':') == ["0"] + Pieces("0:1", ':');
  }

  lemma OneDigit(s: string)
    requires |s| == 1 && IsDigit(s[0])
    ensures Atoi(s) == (s[0] - '0') as int
  {
    assert s[1..] == "";
    assert Digits(s, 0) == Digits("", (s[0] - '0') as int);
  }

  lemma Untrimmed(s: string)
    requires s != "" && !IsSpace(s[0]) && !IsSpace(s[|s| - 1])
    ensures Trim(s) == s
  {
  }

  lemma UnnamedLines()
    ensures Lines(UNNAMED) == ["TRACK", "TRACK", "FILE x", "INDEX 01 0:0:1"]
  {
    var one := "TRACK\n";
    var two := one + "TRACK\n";
    var three := two + "FILE x\n";
    Untrimmed("TRACK");
    Untrimmed("FILE x");
    Untrimmed("INDEX 01 0:0:1");
    BreakEndsLine("", "TRACK", '\n', "");
    BreakEndsLine(one, "TRACK", '\n', "");
    BreakEndsLine(two, "FILE x", '\n', "");
    BreakEndsLine(three, "INDEX 01 0:0:1", '\n', "");
    assert "" + "TRACK" + ['\n'] == one;
    assert one + "TRACK" + ['\n'] == two;
    assert two + "FILE x" + ['\n'] == three;
    assert three + "INDEX 01 0:0:1" + ['\n'] == UNNAMED;
  }

  // ---- Durations ----

  /** The length of a track in seconds, rounded; 0 when its end is unknown. */
  function SongDuration(t: Track): int {
    if t.end != 0 then TruncatedDiv(t.end - t.start + 37, 75) else 0
  }

  /** A song without a length must be the last one, and gets the rest of the file. */
  function LoadedDuration(t: Track, tagDuration: int): int {
    if SongDuration(t) == 0 && tagDuration > 0 then TruncatedDiv(tagDuration * 75 - t.start + 37, 75)
        else SongDuration(t)
  }

  function TotalDuration(tracks: seq<Track>, tagDuration: int): int {
    if tracks == [] then 0
    else TotalDuration(tracks[..|tracks| - 1], tagDuration) + LoadedDuration(tracks[|tracks| - 1], tagDuration)
  }

  /** The tracks of the file at `path`. */
  function InFile(tracks: seq<Track>, path: string): seq<Track> {
    if tracks == [] then []
    else
      var last := |tracks| - 1;
      InFile(tracks[..last], path) + if tracks[last].file == path then [tracks[last]] else []
  }

  lemma {:induction false} AllInFile(tracks: seq<Track>, path: string)
    requires forall i | 0 <= i < |tracks| :: tracks[i].file == path
    ensures InFile(tracks, path) == tracks
  {
    if tracks != [] {
      AllInFile(tracks[..|tracks| - 1], path);
      assert tracks == tracks[..|tracks| - 1] + [tracks[|tracks| - 1]];
    }
  }

  ghost predicate AreDurations(durations: seq<int>, tracks: seq<Track>, tagDuration: int) {
    |durations| == |tracks| && forall i | 0 <= i < |tracks| :: durations[i] == LoadedDuration(tracks[i], tagDuration)
  }

  lemma OneMoreInFile(tracks: seq<Track>, k: nat, path: string, tagDuration: int)
    requires k < |tracks|
    ensures var front, next := InFile(tracks[..k], path), InFile(tracks[..k + 1], path);
            if tracks[k].file != path then next == front
            else
              && next == front + [tracks[k]]
              && TotalDuration(next, tagDuration)
                 == TotalDuration(front, tagDuration) + LoadedDuration(tracks[k], tagDuration)
  {
    var front := InFile(tracks[..k], path);
    assert tracks[..k + 1][..k] == tracks[..k];
    assert (front + [tracks[k]])[..|front|] == front;
  }

  lemma OneMoreDuration(durations: seq<int>, found: seq<Track>, song: Track, duration: int, tagDuration: int)
    requires AreDurations(durations, found, tagDuration) && duration == LoadedDuration(song, tagDuration)
    ensures AreDurations(durations + [duration], found + [song], tagDuration)
  {
  }

  method LoadSong(song: Track, tagDuration: int) returns (duration: int)
    ensures duration == LoadedDuration(song, tagDuration)
  {
    duration := SongDuration(song);
    if duration == 0 && tagDuration > 0 {
      duration := TruncatedDiv(tagDuration * 75 - song.start + 37, 75);
    }
  }

  /** The durations of the songs in the file at `path`, and their sum. */
  method LoadTracks(tracks: seq<Track>, path: string, tagDuration: int) returns (durations: seq<int>, total: int)
    ensures AreDurations(durations, InFile(tracks, path), tagDuration)
    ensures total == TotalDuration(InFile(tracks, path), tagDuration)
  {
    durations, total := [], 0;
    ghost var found: seq<Track> := [];
    var k := 0;
    while k < |tracks|
      invariant 0 <= k <= |tracks| && found == InFile(tracks[..k], path)
      invariant AreDurations(durations, found, tagDuration) && total == TotalDuration(found, tagDuration)
    {
      OneMoreInFile(tracks, k, path, tagDuration);
      var song := tracks[k];
      if song.file == path {
        var duration := LoadSong(song, tagDuration);
        OneMoreDuration(durations, found, song, duration, tagDuration);
        durations := durations + [duration];
        total := total + duration;
        found := found + [song];
      }
      k := k + 1;
    }
    assert tracks[..k] == tracks;
  }

  /** Rounding a length in frames to seconds is off by at most 37 frames exactly
      when the length is at least -37, or falls short of that by whole seconds. */
  lemma RoundingError(frames: int)
    ensures -37 <= 75 * TruncatedDiv(frames + 37, 75) - frames <= 37
            <==> frames >= -37 || (-37 - frames) % 75 == 0
  {
  }

  /** A track in the middle of a file is taken for the last one exactly when it is shorter than 38 frames. */
  lemma ShortTracksLookLast(t: Track)
    requires t.start <= t.end && t.end != 0
    ensures SongDuration(t) == 0 <==> t.end - t.start < 38
  {
  }

  /** All tracks in one file, in order, each but the last at least 38 frames long. */
  ghost predicate OneFile(tracks: seq<Track>, tagDuration: int) {
    && tracks != [] && tagDuration > 0
    && (forall i, j | 0 <= i < j < |tracks| && j == i + 1 ::
          tracks[i].end == tracks[j].start && tracks[i].start + 38 <= tracks[j].start)
    && tracks[0].start >= 0
    && tracks[|tracks| - 1].end == 0
  }

  /** The file, as its tag has it, is not over before its last track. */
  predicate Reaches(tracks: seq<Track>, tagDuration: int)
    requires tracks != []
  {
    tagDuration * 75 - tracks[|tracks| - 1].start >= -37
  }

  lemma {:induction false} FrontDuration(tracks: seq<Track>, k: nat, tagDuration: int)
    requires OneFile(tracks, tagDuration) && k < |tracks|
    ensures tracks[k].start >= 0
    ensures var error := 75 * TotalDuration(tracks[..k], tagDuration) - (tracks[k].start - tracks[0].start);
            -37 * k <= error <= 37 * k
  {
    if k > 0 {
      FrontDuration(tracks, k - 1, tagDuration);
      assert tracks[..k][..k - 1] == tracks[..k - 1];
      var t := tracks[k - 1];
      assert t.end == tracks[k].start && t.start + 38 <= tracks[k].start;
      RoundingError(t.end - t.start);
      ShortTracksLookLast(t);
    }
  }

  /** The durations add up to the file, but for half a second per track; and another second,
      if the file is over before its last track. */
  lemma DurationsAddUp(tracks: seq<Track>, tagDuration: int)
    requires OneFile(tracks, tagDuration)
    ensures var error := 75 * TotalDuration(tracks, tagDuration) - (75 * tagDuration - tracks[0].start);
            -37 * |tracks| <= error <= 37 * |tracks| + if Reaches(tracks, tagDuration) then 0 else 74
  {
    var last := |tracks| - 1;
    FrontDuration(tracks, last, tagDuration);
    RoundingError(tagDuration * 75 - tracks[last].start);
  }

  // ---- From the text to the durations ----

  /** What the bound needs of a parsed sheet: one file, and starts that rise by 38 frames or more. */
  ghost predicate Sound(tracks: seq<Track>, tagDuration: int) {
    && tracks != [] && tagDuration > 0 && tracks[0].start >= 0
    && (forall i | 0 <= i < |tracks| :: tracks[i].file == tracks[0].file)
    && (forall i, j | 0 <= i < j < |tracks| && j == i + 1 :: tracks[i].start + 38 <= tracks[j].start)
  }

  lemma SoundIsOneFile(tracks: seq<Track>, tagDuration: int)
    requires Sound(tracks, tagDuration) && EndsMeetStarts(tracks)
    ensures OneFile(tracks, tagDuration)
  {
    assert EndMeetsStart(tracks, |tracks| - 1);
    forall i, j | 0 <= i < j < |tracks| && j == i + 1 ensures tracks[i].end == tracks[j].start {
      assert EndMeetsStart(tracks, i);
    }
  }

  lemma {:induction false} SameTimesSameTotal(a: seq<Track>, b: seq<Track>, tagDuration: int)
    requires |a| == |b| && forall i | 0 <= i < |a| :: a[i].start == b[i].start && a[i].end == b[i].end
    ensures TotalDuration(a, tagDuration) == TotalDuration(b, tagDuration)
  {
    if a != [] {
      SameTimesSameTotal(a[..|a| - 1], b[..|a| - 1], tagDuration);
    }
  }

  /** The songs of a cue sheet that a file carries in its tag. For a sound sheet with named
      files they add up to the file, but for half a second per track. */
  method LoadEmbedded(content: string, path: string, tagDuration: int)
    returns (ok: bool, durations: seq<int>, total: int)
    ensures ok <==> content != "" && AfterLines(NEW_SHEET, Lines(content)).Some?
                    && AfterLines(NEW_SHEET, Lines(content)).value.tracks != []
    ensures ok ==> var tracks := Finished(AfterLines(NEW_SHEET, Lines(content)).value.tracks);
                   && AreDurations(durations, tracks, tagDuration) && total == TotalDuration(tracks, tagDuration)
                   && (FilesNamed(NEW_SHEET, Lines(content)) && Sound(tracks, tagDuration) ==>
                         -37 * |tracks| <= 75 * total - (75 * tagDuration - tracks[0].start)
                           <= 37 * |tracks| + if Reaches(tracks, tagDuration) then 0 else 74)
  {
    durations, total := [], 0;
    var document := new CueDocument();
    ok := document.ParseTag(content);
    if !ok {
      return;
    }
    ghost var tracks := document.sheet.tracks;
    document.UseFile(path);
    durations, total := LoadTracks(document.sheet.tracks, path, tagDuration);
    UsedFileLoadsAll(tracks, document.sheet.tracks, path, tagDuration, durations);
    if FilesNamed(NEW_SHEET, Lines(content)) && Sound(tracks, tagDuration) {
      ParsedEndsMeetStarts(content);
      SoundIsOneFile(tracks, tagDuration);
      DurationsAddUp(tracks, tagDuration);
    }
  }

  lemma SameTimesSameDuration(a: Track, b: Track, tagDuration: int)
    requires a.start == b.start && a.end == b.end
    ensures LoadedDuration(a, tagDuration) == LoadedDuration(b, tagDuration)
  {
  }

  lemma SameTimesSameDurations(a: seq<Track>, b: seq<Track>, tagDuration: int, durations: seq<int>)
    requires |a| == |b| && forall i | 0 <= i < |a| :: a[i].start == b[i].start && a[i].end == b[i].end
    requires AreDurations(durations, b, tagDuration)
    ensures AreDurations(durations, a, tagDuration)
  {
    forall i | 0 <= i < |durations| ensures durations[i] == LoadedDuration(a[i], tagDuration) {
      SameTimesSameDuration(a[i], b[i], tagDuration);
    }
  }

  lemma UsedFileLoadsAll(tracks: seq<Track>, moved: seq<Track>, path: string, tagDuration: int, durations: seq<int>)
    requires |moved| == |tracks| && forall i | 0 <= i < |tracks| :: moved[i] == tracks[i].(file := path)
    requires AreDurations(durations, InFile(moved, path), tagDuration)
    ensures AreDurations(durations, tracks, tagDuration)
    ensures TotalDuration(InFile(moved, path), tagDuration) == TotalDuration(tracks, tagDuration)
  {
    AllInFile(moved, path);
    SameTimesSameTotal(tracks, moved, tagDuration);
    SameTimesSameDurations(tracks, moved, tagDuration, durations);
  }

  /** For a single track the bound holds exactly when the file, as its tag has it,
      reaches the track, or falls short of it by whole seconds. */
  lemma BoundForOneTrack(t: Track, tagDuration: int)
    requires t.end == 0 && tagDuration > 0
    ensures -37 <= 75 * TotalDuration([t], tagDuration) - (75 * tagDuration - t.start) <= 37
            <==> 75 * tagDuration - t.start >= -37 || (-37 - (75 * tagDuration - t.start)) % 75 == 0
  {
    assert [t][..0] == [];
    assert TotalDuration([t], tagDuration) == LoadedDuration(t, tagDuration);
    RoundingError(75 * tagDuration - t.start);
  }

  /** Here the file falls short by 100 frames. */
  lemma FileTooShort(t: Track)
    requires t.start == 175 && t.end == 0
    ensures 75 * TotalDuration([t], 1) - (75 * 1 - t.start) == 100
  {
    assert [t][..0] == [];
    assert TotalDuration([t], 1) == LoadedDuration(t, 1);
  }
}
