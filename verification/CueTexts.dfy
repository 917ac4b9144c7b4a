/** Cue sheets as they are written, and that reading them gives what was written. */
module CueTexts {
  import opened Basics
  import opened CueSheets

  // ---- Numbers ----

  ghost predicate AllDigits(s: string) {
    forall i | 0 <= i < |s| :: IsDigit(s[i])
  }

  /** A number in decimal, with any leading zeros. */
  ghost predicate IsNumber(s: string) {
    s != "" && AllDigits(s)
  }

  function Value(s: string): nat
    requires forall i | 0 <= i < |s| :: IsDigit(s[i])
  {
    if s == "" then 0
    else
      assert IsDigit(s[|s| - 1]);
      10 * Value(s[..|s| - 1]) + (s[|s| - 1] - '0') as nat
  }

  /** The shortest way to write a number. */
  function Decimal(n: nat): (s: string)
    ensures s != "" && forall i | 0 <= i < |s| :: IsDigit(s[i])
    ensures Value(s) == n
  {
    var digit := '0' + (n % 10) as char;
    if n < 10 then [digit]
    else
      var s := Decimal(n / 10) + [digit];
      assert s[..|s| - 1] == Decimal(n / 10);
      s
  }

  lemma {:induction false} LeadingZero(s: string)
    requires AllDigits(s)
    ensures AllDigits("0" + s) && Value("0" + s) == Value(s)
  {
    var longer := "0" + s;
    if s != "" {
      var last := |s| - 1;
      LeadingZero(s[..last]);
      assert longer[..|longer| - 1] == "0" + s[..last];
    } else {
      assert longer[..0] == "" && longer[0] == '0';
    }
  }

  lemma {:induction false} OneMoreDigit(s: string, d: char, rest: string, v: int)
    requires AllDigits(s) && IsDigit(d) && (rest == "" || !IsDigit(rest[0]))
    ensures Digits(s + [d] + rest, v) == 10 * Digits(s + rest, v) + (d - '0') as int
  {
    if s == "" {
      assert (s + [d] + rest)[1..] == rest && s + rest == rest;
    } else {
      assert (s + [d] + rest)[1..] == s[1..] + [d] + rest && (s + rest)[1..] == s[1..] + rest;
      OneMoreDigit(s[1..], d, rest, 10 * v + (s[0] - '0') as int);
    }
  }

  /** Reading stops where the digits do. */
  lemma {:induction false} DigitsAreRead(s: string, rest: string)
    requires AllDigits(s) && (rest == "" || !IsDigit(rest[0]))
    ensures Digits(s + rest, 0) == Value(s)
  {
    if s == "" {
      assert s + rest == rest;
    } else {
      var last := |s| - 1;
      DigitsAreRead(s[..last], rest);
      OneMoreDigit(s[..last], s[last], rest, 0);
      assert s == s[..last] + [s[last]];
    }
  }

  lemma NumberIsRead(s: string, rest: string)
    requires IsNumber(s) && (rest == "" || !IsDigit(rest[0]))
    ensures Atoi(s + rest) == Value(s) && TrimLeft(s + rest) == s + rest
  {
    DigitsAreRead(s, rest);
    assert (s + rest)[0] == s[0];
  }

  /** A sign may come before a number; and where there is none, it counts as 0. */
  lemma SignIsRead(s: string)
    requires IsNumber(s)
    ensures Atoi("-" + s) == 0 - Value(s) && Atoi("+" + s) == Value(s) && Atoi("") == 0
  {
    DigitsAreRead(s, "");
    assert s + "" == s && ("-" + s)[1..] == s && ("+" + s)[1..] == s;
  }

  /** A number behind a blank. */
  lemma InfoIsNumber(s: string, rest: string)
    requires IsNumber(s) && (rest == "" || !IsDigit(rest[0]))
    ensures ExtractNumericInfo(" " + s + rest) == Value(s)
  {
    NumberIsRead(s, rest);
    SkipBlank(s + rest);
    assert " " + s + rest == " " + (s + rest) && (s + rest)[0] == s[0];
  }

  lemma SkipBlank(s: string)
    ensures TrimLeft(" " + s) == TrimLeft(s)
  {
    assert (" " + s)[1..] == s;
  }

  // ---- Times ----

  /** Minutes, seconds and frames as a cue sheet writes them. */
  datatype Time = Time(minutes: string, seconds: string, frames: string)

  ghost predicate IsTime(t: Time) {
    IsNumber(t.minutes) && IsNumber(t.seconds) && IsNumber(t.frames)
  }

  /** 75 frames a second, 60 seconds a minute. */
  ghost function Frames(t: Time): nat
    requires IsTime(t)
  {
    4500 * Value(t.minutes) + 75 * Value(t.seconds) + Value(t.frames)
  }

  function TimeText(t: Time): string {
    t.minutes + ":" + t.seconds + ":" + t.frames
  }

  lemma {:induction false} FindBehind(a: string, c: char, b: string, from: nat)
    requires from <= |a| && forall i | 0 <= i < |a| :: a[i] != c
    ensures Find(a + [c] + b, c, from) == Some(|a|)
    decreases |a| - from
  {
    if from < |a| {
      FindBehind(a, c, b, from + 1);
    }
  }

  lemma {:induction false} NotFound(a: string, c: char, from: nat)
    requires from <= |a| && forall i | from <= i < |a| :: a[i] != c
    ensures Find(a, c, from).None?
    decreases |a| - from
  {
    if from < |a| {
      NotFound(a, c, from + 1);
    }
  }

  lemma FirstPiece(a: string, c: char, b: string)
    requires forall i | 0 <= i < |a| :: a[i] != c
    ensures Pieces(a + [c] + b, c) == [a] + Pieces(b, c)
  {
    var s := a + [c] + b;
    FindBehind(a, c, b, 0);
    assert s[..|a|] == a && s[|a| + 1..] == b;
  }

  lemma TimePieces(t: Time)
    requires IsTime(t)
    ensures Split(TimeText(t), ':') == [t.minutes, t.seconds, t.frames]
  {
    var rest := t.seconds + [':'] + t.frames;
    assert TimeText(t) == t.minutes + [':'] + rest;
    FirstPiece(t.minutes, ':', rest);
    FirstPiece(t.seconds, ':', t.frames);
    NotFound(t.frames, ':', 0);
    assert Pieces(t.frames, ':') == [t.frames];
  }

  function IndexLine(t: Time): string {
    "INDEX 01" + " " + TimeText(t)
  }

  lemma DropNumber(text: string)
    ensures DropDigits("0" + ("1" + (" " + text))) == " " + text
  {
    var blank := " " + text;
    var one := "1" + blank;
    var zero := "0" + one;
    assert blank[0] == ' ' && one[0] == '1' && one[1..] == blank && zero[0] == '0' && zero[1..] == one;
    assert DropDigits(zero) == DropDigits(one) == DropDigits(blank) == blank;
  }

  lemma IndexText(t: Time)
    requires IsTime(t)
    ensures TrimLeft(DropDigits(TrimLeft(IndexLine(t)[5..]))) == TimeText(t)
  {
    var text := TimeText(t);
    var number := "0" + ("1" + (" " + text));
    assert text[0] == t.minutes[0];
    assert IndexLine(t)[5..] == " " + number;
    assert number[0] == '0';
    calc {
      TrimLeft(DropDigits(TrimLeft(" " + number)));
    ==  { SkipBlank(number); }
      TrimLeft(DropDigits(number));
    ==  { DropNumber(text); }
      TrimLeft(" " + text);
    ==  { SkipBlank(text); }
      text;
    }
  }

  /** A time that is written in minutes, seconds and frames is read as so many frames. */
  lemma TimeIsRead(t: Time)
    requires IsTime(t)
    ensures IndexTime(IndexLine(t)) == Frames(t)
  {
    IndexText(t);
    TimePieces(t);
    NumberIsRead(t.minutes, "");
    NumberIsRead(t.seconds, "");
    NumberIsRead(t.frames, "");
    assert t.minutes + "" == t.minutes && t.seconds + "" == t.seconds && t.frames + "" == t.frames;
  }

  /** Without its colons a time fails the sheet. */
  lemma NoTimeFails(sheet: Sheet, text: string)
    requires forall i | 0 <= i < |text| :: text[i] != ':'
    ensures AfterLine(sheet, "INDEX 01" + text).None?
  {
    var line := "INDEX 01" + text;
    BeginsWith("INDEX 01", text);
    var left := TrimLeft(DropDigits(TrimLeft(line[5..])));
    assert line[5..] == " 01" + text;
    TrimmedHasNo(line[5..], ':');
    DroppedHasNo(TrimLeft(line[5..]), ':');
    TrimmedHasNo(DropDigits(TrimLeft(line[5..])), ':');
    NotFound(left, ':', 0);
  }

  lemma {:induction false} TrimmedHasNo(s: string, c: char)
    requires forall i | 0 <= i < |s| :: s[i] != c
    ensures forall i | 0 <= i < |TrimLeft(s)| :: TrimLeft(s)[i] != c
    decreases |s|
  {
    if s != "" && IsSpace(s[0]) {
      TrimmedHasNo(s[1..], c);
    }
  }

  lemma {:induction false} DroppedHasNo(s: string, c: char)
    requires forall i | 0 <= i < |s| :: s[i] != c
    ensures forall i | 0 <= i < |DropDigits(s)| :: DropDigits(s)[i] != c
    decreases |s|
  {
    if s != "" && IsDigit(s[0]) {
      DroppedHasNo(s[1..], c);
    }
  }

  /** And so does a time for a track that began in another file. */
  lemma SplitTrackFails(sheet: Sheet, t: Time)
    requires IsTime(t) && sheet.fileChanged
    ensures AfterLine(sheet, IndexLine(t)).None?
  {
    assert IndexLine(t) == "INDEX 01" + (" " + TimeText(t));
    BeginsWith("INDEX 01", " " + TimeText(t));
  }

  /** A time in front of all tracks is read and dropped. */
  lemma EarlyTimeIsDropped(sheet: Sheet, t: Time)
    requires IsTime(t) && sheet.tracks == [] && !sheet.fileChanged
    ensures AfterLine(sheet, IndexLine(t)) == Some(sheet)
  {
    TimeIsRead(t);
    IndexLineIsRead(sheet, t);
  }

  // ---- Names ----

  predicate IsQuotable(s: string) {
    forall i | 0 <= i < |s| :: s[i] != '"' && !IsBreak(s[i])
  }

  function Quoted(s: string): string {
    " " + "\"" + s + "\""
  }

  lemma QuotedIsRead(s: string, rest: string)
    requires IsQuotable(s)
    ensures ExtractInfo(Quoted(s) + rest) == s
  {
    var text := Quoted(s) + rest;
    FindBehind(" ", '"', s + "\"" + rest, 0);
    assert text == " " + ['"'] + (s + "\"" + rest);
    QuoteEnds(s, rest, 2);
    assert text[2..|s| + 2] == s;
  }

  lemma {:induction false} QuoteEnds(s: string, rest: string, from: nat)
    requires IsQuotable(s) && 2 <= from <= |s| + 2
    ensures Find(Quoted(s) + rest, '"', from) == Some(|s| + 2)
    decreases |s| + 2 - from
  {
    var text := Quoted(s) + rest;
    if from < |s| + 2 {
      assert text[from] == s[from - 2];
      QuoteEnds(s, rest, from + 1);
    } else {
      assert text[from] == '"';
    }
  }

  // ---- Keywords ----

  /** The line begins with the keyword. */
  lemma BeginsWith(key: string, rest: string)
    ensures StartsWithNoCase(key + rest, key)
    ensures (key + rest)[|key|..] == rest
  {
  }

  /** It does not begin with another one that differs somewhere. */
  lemma BeginsOtherwise(key: string, rest: string, other: string, i: nat)
    requires i < |key| && i < |other| && Lower(key[i]) != Lower(other[i])
    ensures !StartsWithNoCase(key + rest, other)
  {
    assert (key + rest)[i] == key[i];
  }

  lemma TitleLine(sheet: Sheet, title: string)
    requires IsQuotable(title)
    ensures AfterLine(sheet, "TITLE" + Quoted(title)) == Some(WithTitle(sheet, title))
  {
    BeginsWith("TITLE", Quoted(title));
    BeginsOtherwise("TITLE", Quoted(title), "INDEX 01", 0);
    QuotedIsRead(title, "");
    assert Quoted(title) + "" == Quoted(title);
  }

  lemma PerformerLine(sheet: Sheet, artist: string)
    requires IsQuotable(artist)
    ensures AfterLine(sheet, "PERFORMER" + Quoted(artist)) == Some(WithArtist(sheet, artist))
  {
    BeginsWith("PERFORMER", Quoted(artist));
    BeginsOtherwise("PERFORMER", Quoted(artist), "INDEX 01", 0);
    BeginsOtherwise("PERFORMER", Quoted(artist), "TITLE", 0);
    QuotedIsRead(artist, "");
    assert Quoted(artist) + "" == Quoted(artist);
  }

  function TrackLine(number: string): string {
    "TRACK" + " " + number + " AUDIO"
  }

  lemma TrackLineIsRead(sheet: Sheet, number: string)
    requires IsNumber(number)
    ensures AfterLine(sheet, TrackLine(number)) == Some(WithTrack(sheet, Value(number)))
  {
    var rest := " " + number + " AUDIO";
    assert TrackLine(number) == "TRACK" + rest;
    BeginsWith("TRACK", rest);
    BeginsOtherwise("TRACK", rest, "INDEX 01", 0);
    BeginsOtherwise("TRACK", rest, "TITLE", 1);
    BeginsOtherwise("TRACK", rest, "PERFORMER", 0);
    InfoIsNumber(number, " AUDIO");
  }

  /** A track without a number gets its place in the sheet. */
  lemma UnnumberedTrack(sheet: Sheet, text: string)
    requires text == "" || !(IsSpace(text[0]) || IsDigit(text[0]))
    ensures AfterLine(sheet, "TRACK" + text) == Some(WithTrack(sheet, |sheet.tracks| + 1))
  {
    BeginsWith("TRACK", text);
    BeginsOtherwise("TRACK", text, "INDEX 01", 0);
    BeginsOtherwise("TRACK", text, "TITLE", 1);
    BeginsOtherwise("TRACK", text, "PERFORMER", 0);
    assert ExtractNumericInfo(text) == -1;
  }

  ghost predicate Begins(line: string, key: string) {
    |key| <= |line| && SameLetters(line[..|key|], key)
  }

  /** A line with none of the keywords changes nothing. */
  lemma OtherLinesAreIgnored(sheet: Sheet, line: string)
    requires !Begins(line, "INDEX 01") && !Begins(line, "TITLE") && !Begins(line, "PERFORMER")
    requires !Begins(line, "TRACK") && !Begins(line, "FILE")
    requires !Begins(line, "REM DISCNUMBER") && !Begins(line, "REM DATE") && !Begins(line, "REM GENRE")
    ensures AfterLine(sheet, line) == Some(sheet)
  {
    NoKeyword(line, "INDEX 01");
    NoKeyword(line, "TITLE");
    NoKeyword(line, "PERFORMER");
    NoKeyword(line, "TRACK");
    NoKeyword(line, "FILE");
    NoKeyword(line, "REM DISCNUMBER");
    NoKeyword(line, "REM DATE");
    NoKeyword(line, "REM GENRE");
  }

  lemma NoKeyword(line: string, key: string)
    ensures StartsWithNoCase(line, key) <==> Begins(line, key)
  {
    StartsMeans(line, key);
  }

  lemma IndexLineIsRead(sheet: Sheet, t: Time)
    requires IsTime(t)
    ensures AfterLine(sheet, IndexLine(t)) == AfterIndex(sheet, IndexLine(t))
  {
    assert IndexLine(t) == "INDEX 01" + (" " + TimeText(t));
    BeginsWith("INDEX 01", " " + TimeText(t));
  }

  function FileLine(name: string): string {
    "FILE" + Quoted(name) + " WAVE"
  }

  /** A line about none of the last track's things. */
  lemma OtherLine(sheet: Sheet, key: string, rest: string)
    requires key != "" && key[0] in "FR"
    ensures AfterLine(sheet, key + rest) == Some(AfterOtherLine(sheet, key + rest))
  {
    BeginsOtherwise(key, rest, "INDEX 01", 0);
    BeginsOtherwise(key, rest, "TITLE", 0);
    BeginsOtherwise(key, rest, "PERFORMER", 0);
    BeginsOtherwise(key, rest, "TRACK", 0);
  }

  lemma FileLineIsRead(sheet: Sheet, name: string)
    requires IsQuotable(name)
    ensures AfterLine(sheet, FileLine(name))
            == Some(sheet.(files := sheet.files + 1, fileChanged := sheet.fileChanged || sheet.file != "",
                           file := name))
  {
    var rest := Quoted(name) + " WAVE";
    assert FileLine(name) == "FILE" + rest;
    OtherLine(sheet, "FILE", rest);
    FileOpens(sheet, rest);
    QuotedIsRead(name, " WAVE");
  }

  lemma FileOpens(sheet: Sheet, rest: string)
    ensures AfterOtherLine(sheet, "FILE" + rest)
            == sheet.(files := sheet.files + 1, fileChanged := sheet.fileChanged || sheet.file != "",
                      file := ExtractInfo(rest))
  {
    BeginsWith("FILE", rest);
    BeginsOtherwise("FILE", rest, "REM DISCNUMBER", 0);
  }

  /** A line about the album, with a number. */
  lemma DateLineIsRead(sheet: Sheet, date: string)
    requires IsNumber(date)
    ensures AfterLine(sheet, "REM DATE" + " " + date)
            == Some(if Value(date) > 0 then sheet.(year := Value(date)) else sheet)
  {
    var rest := " " + date;
    assert "REM DATE" + " " + date == "REM DATE" + rest;
    OtherLine(sheet, "REM DATE", rest);
    DateIsNamed(sheet, rest);
    InfoIsNumber(date, "");
    assert rest + "" == rest;
  }

  lemma DateIsNamed(sheet: Sheet, rest: string)
    ensures var year := ExtractNumericInfo(rest);
            AfterOtherLine(sheet, "REM DATE" + rest) == if year > 0 then sheet.(year := year) else sheet
  {
    BeginsWith("REM DATE", rest);
    BeginsOtherwise("REM DATE", rest, "REM DISCNUMBER", 5);
    BeginsOtherwise("REM DATE", rest, "FILE", 0);
  }

  lemma DiscLineIsRead(sheet: Sheet, disc: string)
    requires IsNumber(disc)
    ensures AfterLine(sheet, "REM DISCNUMBER" + " " + disc)
            == Some(if Value(disc) > 0 then sheet.(discNumber := Value(disc)) else sheet)
  {
    var rest := " " + disc;
    OtherLine(sheet, "REM DISCNUMBER", rest);
    BeginsWith("REM DISCNUMBER", rest);
    InfoIsNumber(disc, "");
    assert rest + "" == rest && "REM DISCNUMBER" + " " + disc == "REM DISCNUMBER" + rest;
  }

  /** A text without blanks around it, on one line. */
  predicate IsTidy(s: string) {
    s != "" && !IsSpace(s[0]) && !IsSpace(s[|s| - 1]) && forall i | 0 <= i < |s| :: !IsBreak(s[i])
  }

  /** A genre need not be in quotes. */
  lemma GenreLineIsRead(sheet: Sheet, genre: string)
    requires IsTidy(genre) && IsQuotable(genre)
    ensures AfterLine(sheet, "REM GENRE" + " " + genre) == Some(sheet.(genre := genre))
  {
    var rest := " " + genre;
    assert "REM GENRE" + " " + genre == "REM GENRE" + rest;
    OtherLine(sheet, "REM GENRE", rest);
    GenreIsNamed(sheet, rest);
    NotFound(rest, '"', 0);
    SkipBlank(genre);
    Untrimmed(genre);
  }

  lemma GenreIsNamed(sheet: Sheet, rest: string)
    ensures AfterOtherLine(sheet, "REM GENRE" + rest) == sheet.(genre := ExtractInfo(rest))
  {
    BeginsWith("REM GENRE", rest);
    BeginsOtherwise("REM GENRE", rest, "REM DISCNUMBER", 4);
    BeginsOtherwise("REM GENRE", rest, "FILE", 0);
    BeginsOtherwise("REM GENRE", rest, "REM DATE", 4);
  }

  // ---- Sheets ----

  /** What is written about the album. */
  datatype Head = Head(genre: string, date: string, disc: string, artist: string, album: string)

  /** What is written about a track; `opens` says that its file is named anew. */
  datatype Entry = Entry(opens: bool, file: string, number: string, title: string, artist: string, time: Time)

  ghost predicate IsHead(h: Head) {
    && IsTidy(h.genre) && IsQuotable(h.genre) && IsNumber(h.date) && IsNumber(h.disc)
    && IsQuotable(h.artist) && IsQuotable(h.album)
  }

  ghost predicate IsEntry(e: Entry) {
    && e.file != "" && IsQuotable(e.file) && IsNumber(e.number) && IsQuotable(e.title) && IsQuotable(e.artist)
    && IsTime(e.time)
  }

  /** A file is named before its tracks. */
  ghost predicate AreEntries(entries: seq<Entry>) {
    && (forall k | 0 <= k < |entries| :: IsEntry(entries[k]))
    && forall k | 0 <= k < |entries| && !entries[k].opens :: k > 0 && entries[k].file == entries[k - 1].file
  }

  function HeadLines(h: Head): seq<string> {
    ["REM GENRE" + " " + h.genre, "REM DATE" + " " + h.date, "REM DISCNUMBER" + " " + h.disc,
     "PERFORMER" + Quoted(h.artist), "TITLE" + Quoted(h.album)]
  }

  function TrackLines(e: Entry): seq<string> {
    [TrackLine(e.number), "TITLE" + Quoted(e.title), "PERFORMER" + Quoted(e.artist), IndexLine(e.time)]
  }

  function EntryLines(e: Entry): seq<string> {
    (if e.opens then [FileLine(e.file)] else []) + TrackLines(e)
  }

  function AllEntryLines(entries: seq<Entry>): seq<string> {
    if entries == [] then [] else AllEntryLines(entries[..|entries| - 1]) + EntryLines(entries[|entries| - 1])
  }

  /** The lines of a whole sheet. */
  function SheetLines(h: Head, entries: seq<Entry>): seq<string> {
    HeadLines(h) + AllEntryLines(entries)
  }

  /** A positive number, or else another one. */
  ghost function Positive(s: string, other: int): int
    requires IsNumber(s)
  {
    if Value(s) > 0 then Value(s) else other
  }

  /** Where the track of entry `k` ends: where the next one in the same file starts. */
  ghost function EndOf(entries: seq<Entry>, k: nat): int
    requires k < |entries| && forall i | 0 <= i < |entries| :: IsEntry(entries[i])
  {
    if k + 1 < |entries| && entries[k + 1].file == entries[k].file then
      assert IsEntry(entries[k + 1]);
      Frames(entries[k + 1].time)
    else
      0
  }

  /** The track that entry `k` is about. */
  ghost function TrackOf(entries: seq<Entry>, k: nat): Track
    requires k < |entries| && forall i | 0 <= i < |entries| :: IsEntry(entries[i])
  {
    var e := entries[k];
    assert IsEntry(e);
    Track(e.artist, e.title, e.file, Positive(e.number, k + 1), Frames(e.time), EndOf(entries, k))
  }

  /** The sheet holds what was written about the album, and exactly the written tracks. */
  ghost predicate IsWritten(sheet: Sheet, h: Head, entries: seq<Entry>)
    requires IsHead(h) && AreEntries(entries)
  {
    && sheet.genre == h.genre && sheet.year == Positive(h.date, 0) && sheet.discNumber == Positive(h.disc, 0)
    && sheet.artist == h.artist && sheet.album == h.album
    && |sheet.tracks| == |entries| && forall k | 0 <= k < |entries| :: sheet.tracks[k] == TrackOf(entries, k)
  }

  /** Where reading is after some entries. */
  ghost predicate IsReading(sheet: Sheet, h: Head, entries: seq<Entry>)
    requires IsHead(h) && AreEntries(entries)
  {
    && IsWritten(sheet, h, entries) && !sheet.fileChanged
    && sheet.file == if entries == [] then "" else entries[|entries| - 1].file
  }

  lemma {:induction false} LinesOfBoth(sheet: Sheet, a: seq<string>, b: seq<string>)
    requires AfterLines(sheet, a).Some?
    ensures AfterLines(sheet, a + b) == AfterLines(AfterLines(sheet, a).value, b)
    decreases |a|
  {
    if a == [] {
      assert a + b == b;
    } else {
      assert (a + b)[1..] == a[1..] + b;
      LinesOfBoth(AfterLine(sheet, a[0]).value, a[1..], b);
    }
  }

  lemma OneLine(sheet: Sheet, a: string)
    requires AfterLine(sheet, a).Some?
    ensures AfterLines(sheet, [a]) == AfterLine(sheet, a)
  {
    assert [a][1..] == [];
  }

  lemma HeadIsRead(h: Head) returns (sheet: Sheet)
    requires IsHead(h)
    ensures AfterLines(NEW_SHEET, HeadLines(h)) == Some(sheet) && IsReading(sheet, h, [])
  {
    var genre := NEW_SHEET.(genre := h.genre);
    var date := genre.(year := Positive(h.date, 0));
    var disc := date.(discNumber := Positive(h.disc, 0));
    var artist := disc.(artist := h.artist);
    sheet := artist.(album := h.album);
    GenreLineIsRead(NEW_SHEET, h.genre);
    DateIsSet(genre, h.date);
    DiscIsSet(date, h.disc);
    PerformerLine(disc, h.artist);
    TitleLine(artist, h.album);
    FiveLines(NEW_SHEET, genre, date, disc, artist, sheet, HeadLines(h));
  }

  lemma DateIsSet(sheet: Sheet, date: string)
    requires IsNumber(date) && sheet.year == 0
    ensures AfterLine(sheet, "REM DATE" + " " + date) == Some(sheet.(year := Positive(date, 0)))
  {
    DateLineIsRead(sheet, date);
  }

  lemma DiscIsSet(sheet: Sheet, disc: string)
    requires IsNumber(disc) && sheet.discNumber == 0
    ensures AfterLine(sheet, "REM DISCNUMBER" + " " + disc) == Some(sheet.(discNumber := Positive(disc, 0)))
  {
    DiscLineIsRead(sheet, disc);
  }

  lemma FiveLines(s0: Sheet, s1: Sheet, s2: Sheet, s3: Sheet, s4: Sheet, s5: Sheet, lines: seq<string>)
    requires |lines| == 5 && AfterLine(s0, lines[0]) == Some(s1) && AfterLine(s1, lines[1]) == Some(s2)
    requires AfterLine(s2, lines[2]) == Some(s3) && AfterLine(s3, lines[3]) == Some(s4)
    requires AfterLine(s4, lines[4]) == Some(s5)
    ensures AfterLines(s0, lines) == Some(s5)
  {
    FourLines(s1, s2, s3, s4, s5, lines[1], lines[2], lines[3], lines[4]);
    assert lines[1..] == [lines[1], lines[2], lines[3], lines[4]];
  }

  /** The tracks after one more entry. */
  ghost function Extended(tracks: seq<Track>, e: Entry): seq<Track>
    requires IsEntry(e)
  {
    var n := |tracks|;
    var track := Track(e.artist, e.title, e.file, Positive(e.number, n + 1), Frames(e.time), 0);
    (if n > 0 && tracks[n - 1].file == e.file then SetLast(tracks, tracks[n - 1].(end := Frames(e.time))) else tracks)
    + [track]
  }

  lemma TrackIsRead(sheet: Sheet, e: Entry)
    requires IsEntry(e) && sheet.file == e.file
    ensures AfterLines(sheet, TrackLines(e))
            == Some(sheet.(tracks := Extended(sheet.tracks, e), fileChanged := false))
  {
    var now := sheet.(fileChanged := false);
    var track := Track("", "", e.file, Positive(e.number, |sheet.tracks| + 1), 0, 0);
    var titled := track.(title := e.title);
    var played := titled.(artist := e.artist);
    var s1, s2 := now.(tracks := now.tracks + [track]), now.(tracks := now.tracks + [titled]);
    var s3, s4 := now.(tracks := now.tracks + [played]), now.(tracks := Extended(now.tracks, e));
    var a, b, c, d := TrackLine(e.number), "TITLE" + Quoted(e.title), "PERFORMER" + Quoted(e.artist), IndexLine(e.time);
    TrackBegins(sheet, e.number, s1);
    TitleIsSet(now, track, e.title);
    ArtistIsSet(now, titled, e.artist);
    TimeEndsAndStarts(now, e, s3);
    FourLines(sheet, s1, s2, s3, s4, a, b, c, d);
  }

  lemma TrackBegins(sheet: Sheet, number: string, next: Sheet)
    requires IsNumber(number)
    requires next == sheet.(fileChanged := false, tracks := sheet.tracks
                            + [Track("", "", sheet.file, Positive(number, |sheet.tracks| + 1), 0, 0)])
    ensures AfterLine(sheet, TrackLine(number)) == Some(next)
  {
    TrackLineIsRead(sheet, number);
  }

  lemma TitleIsSet(sheet: Sheet, t: Track, title: string)
    requires IsQuotable(title)
    ensures AfterLine(sheet.(tracks := sheet.tracks + [t]), "TITLE" + Quoted(title))
            == Some(sheet.(tracks := sheet.tracks + [t.(title := title)]))
  {
    TitleLine(sheet.(tracks := sheet.tracks + [t]), title);
    assert SetLast(sheet.tracks + [t], t.(title := title)) == sheet.tracks + [t.(title := title)];
  }

  lemma ArtistIsSet(sheet: Sheet, t: Track, artist: string)
    requires IsQuotable(artist)
    ensures AfterLine(sheet.(tracks := sheet.tracks + [t]), "PERFORMER" + Quoted(artist))
            == Some(sheet.(tracks := sheet.tracks + [t.(artist := artist)]))
  {
    PerformerLine(sheet.(tracks := sheet.tracks + [t]), artist);
    assert SetLast(sheet.tracks + [t], t.(artist := artist)) == sheet.tracks + [t.(artist := artist)];
  }

  lemma TimeEndsAndStarts(sheet: Sheet, e: Entry, played: Sheet)
    requires IsEntry(e) && sheet.file == e.file && !sheet.fileChanged
    requires played == sheet.(tracks := sheet.tracks + [Track(e.artist, e.title, e.file,
                                                              Positive(e.number, |sheet.tracks| + 1), 0, 0)])
    ensures AfterLine(played, IndexLine(e.time)) == Some(played.(tracks := Extended(sheet.tracks, e)))
  {
    TimeIsRead(e.time);
    IndexLineIsRead(played, e.time);
    var next := AfterIndex(played, IndexLine(e.time)).value.tracks;
    assert next == Extended(sheet.tracks, e);
  }

  lemma EntryIsRead(sheet: Sheet, h: Head, entries: seq<Entry>, e: Entry) returns (next: Sheet)
    requires IsHead(h) && AreEntries(entries) && AreEntries(entries + [e]) && IsReading(sheet, h, entries)
    ensures AfterLines(sheet, EntryLines(e)) == Some(next) && IsReading(next, h, entries + [e])
  {
    var all := entries + [e];
    assert all[|entries|] == e && IsEntry(all[|entries|]);
    assert e.opens || (entries != [] && all[|entries| - 1] == entries[|entries| - 1]);
    var sheet' := sheet;
    if e.opens {
      FileLineIsRead(sheet, e.file);
      sheet' := AfterLine(sheet, FileLine(e.file)).value;
      OneLine(sheet, FileLine(e.file));
      LinesOfBoth(sheet, [FileLine(e.file)], TrackLines(e));
    } else {
      assert EntryLines(e) == TrackLines(e);
    }
    TrackIsRead(sheet', e);
    next := sheet'.(tracks := Extended(sheet'.tracks, e), fileChanged := false);
    TracksExtended(sheet.tracks, entries, e);
  }

  lemma TracksExtended(tracks: seq<Track>, entries: seq<Entry>, e: Entry)
    requires AreEntries(entries) && AreEntries(entries + [e])
    requires |tracks| == |entries| && forall k | 0 <= k < |entries| :: tracks[k] == TrackOf(entries, k)
    ensures IsEntry(e)
    ensures var next := Extended(tracks, e);
            |next| == |entries| + 1 && forall k | 0 <= k <= |entries| :: next[k] == TrackOf(entries + [e], k)
  {
    var all := entries + [e];
    assert all[|entries|] == e && IsEntry(all[|entries|]);
    var next := Extended(tracks, e);
    forall k | 0 <= k <= |entries| ensures next[k] == TrackOf(all, k) {
      if k < |entries| {
        assert all[k] == entries[k] && tracks[k] == TrackOf(entries, k);
        assert k + 1 < |entries| ==> all[k + 1] == entries[k + 1];
      }
    }
  }

  lemma MoreLines(h: Head, entries: seq<Entry>)
    requires entries != []
    ensures var n := |entries| - 1; SheetLines(h, entries) == SheetLines(h, entries[..n]) + EntryLines(entries[n])
  {
  }

  lemma FrontEntries(entries: seq<Entry>)
    requires AreEntries(entries) && entries != []
    ensures AreEntries(entries[..|entries| - 1])
  {
  }

  /** All entries are read. */
  lemma {:induction false} EntriesAreRead(h: Head, entries: seq<Entry>) returns (sheet: Sheet)
    requires IsHead(h) && AreEntries(entries)
    ensures AfterLines(NEW_SHEET, SheetLines(h, entries)) == Some(sheet) && IsReading(sheet, h, entries)
  {
    if entries == [] {
      sheet := HeadIsRead(h);
      assert HeadLines(h) + [] == HeadLines(h);
    } else {
      var n := |entries| - 1;
      var front, e := entries[..n], entries[n];
      assert front + [e] == entries;
      FrontEntries(entries);
      var before := EntriesAreRead(h, front);
      sheet := EntryIsRead(before, h, front, e);
      LinesOfBoth(NEW_SHEET, SheetLines(h, front), EntryLines(e));
      MoreLines(h, entries);
    }
  }

  // ---- Texts ----

  /** What stands in front of each line of a text, what behind it, and how it ends. */
  datatype Layout = Layout(indent: string, trail: string, end: string)

  ghost predicate IsLayout(l: Layout) {
    AreBlanks(l.indent) && AreBlanks(l.trail) && l.end in {"\n", "\r\n", "\r"}
  }

  ghost predicate AreBlanks(s: string) {
    forall i | 0 <= i < |s| :: s[i] in {' ', '\t'}
  }

  function Padded(l: Layout, line: string): string {
    l.indent + line + l.trail
  }

  /** Each line with its blanks, and a line break. */
  function Text(l: Layout, lines: seq<string>): string {
    if lines == [] then "" else Text(l, lines[..|lines| - 1]) + Padded(l, lines[|lines| - 1]) + l.end
  }

  ghost predicate AllTidy(lines: seq<string>) {
    forall k | 0 <= k < |lines| :: IsTidy(lines[k])
  }

  lemma {:induction false} TrailIsTrimmed(s: string, trail: string)
    requires IsTidy(s) && AreBlanks(trail)
    ensures TrimRight(s + trail) == s
  {
    var padded := s + trail;
    if trail == "" {
      assert padded == s;
    } else {
      var last := |trail| - 1;
      TrailIsTrimmed(s, trail[..last]);
      assert padded[|padded| - 1] == trail[last] && padded[..|padded| - 1] == s + trail[..last];
    }
  }

  lemma {:induction false} IndentIsTrimmed(indent: string, rest: string)
    requires AreBlanks(indent) && rest != "" && !IsSpace(rest[0])
    ensures TrimLeft(indent + rest) == rest
  {
    var padded := indent + rest;
    if indent == "" {
      assert padded == rest;
    } else {
      IndentIsTrimmed(indent[1..], rest);
      assert padded[1..] == indent[1..] + rest && padded[0] == indent[0];
    }
  }

  lemma BlanksAreTrimmed(l: Layout, line: string)
    requires IsLayout(l) && IsTidy(line)
    ensures Trim(Padded(l, line)) == line
    ensures forall i | 0 <= i < |Padded(l, line)| :: !IsBreak(Padded(l, line)[i])
  {
    var padded := Padded(l, line);
    assert padded == l.indent + (line + l.trail);
    IndentIsTrimmed(l.indent, line + l.trail);
    TrailIsTrimmed(line, l.trail);
    forall i | 0 <= i < |padded| ensures !IsBreak(padded[i]) {
      var k := i - |l.indent|;
      assert padded[i] == if k < 0 then l.indent[i] else if k < |line| then line[k] else l.trail[k - |line|];
    }
  }

  /** A text without quotes is read without the blanks around it. */
  lemma UnquotedIsRead(l: Layout, s: string)
    requires IsLayout(l) && IsTidy(s) && IsQuotable(s)
    ensures ExtractInfo(Padded(l, s)) == s
  {
    var padded := Padded(l, s);
    BlanksAreTrimmed(l, s);
    forall i | 0 <= i < |padded| ensures padded[i] != '"' {
      var k := i - |l.indent|;
      assert padded[i] == if k < 0 then l.indent[i] else if k < |s| then s[k] else l.trail[k - |s|];
    }
    NotFound(padded, '"', 0);
  }

  /** One more line, ended by a line break. */
  lemma LineEnds(l: Layout, data: string, line: string, b: char)
    requires IsLayout(l) && IsTidy(line) && (data == "" || IsBreak(data[|data| - 1])) && IsBreak(b)
    ensures Lines(data + Padded(l, line) + [b]) == Lines(data) + [line]
  {
    BlanksAreTrimmed(l, line);
    BreakEndsLine(data, Padded(l, line), b, "");
  }

  /** One more line, however it ends. */
  lemma LineIsRead(l: Layout, data: string, line: string)
    requires IsLayout(l) && IsTidy(line) && (data == "" || IsBreak(data[|data| - 1]))
    ensures Lines(data + Padded(l, line) + l.end) == Lines(data) + [line]
  {
    LineEnds(l, data, line, l.end[0]);
    AnyEnd(data + Padded(l, line), l.end);
  }

  /** However a line ends, its first line break decides. */
  lemma AnyEnd(text: string, end: string)
    requires end in {"\n", "\r\n", "\r"}
    ensures Lines(text + end) == Lines(text + [end[0]])
  {
    if |end| == 2 {
      SecondBreak(text + [end[0]]);
      assert text + end == text + [end[0]] + ['\n'];
    } else {
      assert end == [end[0]];
    }
  }

  /** A break right behind another one ends no line. */
  lemma SecondBreak(data: string)
    requires data != "" && IsBreak(data[|data| - 1])
    ensures Lines(data + ['\n']) == Lines(data)
  {
    BreakEndsLine(data, "", '\n', "");
    assert data + "" == data && Trim("") == "";
  }

  /** Tidy lines are read as they were written, whatever blanks are around them and whatever they end in. */
  lemma {:induction false} LinesAreRead(l: Layout, lines: seq<string>)
    requires IsLayout(l) && AllTidy(lines)
    ensures Lines(Text(l, lines)) == lines
    ensures Text(l, lines) == "" || IsBreak(Text(l, lines)[|Text(l, lines)| - 1])
  {
    if lines != [] {
      var n := |lines| - 1;
      var front, last := lines[..n], lines[n];
      LinesAreRead(l, front);
      LineIsRead(l, Text(l, front), last);
      assert lines == front + [last];
    }
  }

  function SheetText(l: Layout, h: Head, entries: seq<Entry>): string {
    Text(l, SheetLines(h, entries))
  }

  lemma NumbersAreTidy(key: string, s: string)
    requires IsTidy(key) && IsNumber(s)
    ensures IsTidy(key + " " + s)
  {
    var line := key + " " + s;
    forall i | 0 <= i < |line| ensures !IsBreak(line[i]) {
      if i > |key| {
        assert line[i] == s[i - |key| - 1];
      }
    }
    assert line[|line| - 1] == s[|s| - 1];
  }

  lemma QuotesAreTidy(key: string, s: string)
    requires IsTidy(key) && IsQuotable(s)
    ensures IsTidy(key + Quoted(s))
  {
    var line := key + Quoted(s);
    forall i | 0 <= i < |line| ensures !IsBreak(line[i]) {
      if |key| + 2 <= i < |line| - 1 {
        assert line[i] == s[i - |key| - 2];
      }
    }
  }

  lemma JoinedIsTidy(a: string, b: string, c: string)
    requires IsTidy(a) && IsTidy(c) && forall i | 0 <= i < |b| :: !IsBreak(b[i])
    ensures IsTidy(a + b + c)
  {
    var line := a + b + c;
    forall i | 0 <= i < |line| ensures !IsBreak(line[i]) {
      assert line[i] == if i < |a| then a[i] else if i < |a| + |b| then b[i - |a|] else c[i - |a| - |b|];
    }
  }

  lemma NumberIsTidy(s: string)
    requires IsNumber(s)
    ensures IsTidy(s)
  {
  }

  lemma TimesAreTidy(t: Time)
    requires IsTime(t)
    ensures IsTidy(IndexLine(t))
  {
    NumberIsTidy(t.minutes);
    NumberIsTidy(t.seconds);
    NumberIsTidy(t.frames);
    JoinedIsTidy(t.minutes, ":", t.seconds);
    JoinedIsTidy(t.minutes + ":" + t.seconds, ":", t.frames);
    JoinedIsTidy("INDEX 01", " ", TimeText(t));
  }

  lemma HeadIsTidy(h: Head)
    requires IsHead(h)
    ensures AllTidy(HeadLines(h))
  {
    JoinedIsTidy("REM GENRE", " ", h.genre);
    NumbersAreTidy("REM DATE", h.date);
    NumbersAreTidy("REM DISCNUMBER", h.disc);
    QuotesAreTidy("PERFORMER", h.artist);
    QuotesAreTidy("TITLE", h.album);
  }

  lemma EntryIsTidy(e: Entry)
    requires IsEntry(e)
    ensures AllTidy(EntryLines(e))
  {
    QuotesAreTidy("FILE", e.file);
    JoinedIsTidy("FILE" + Quoted(e.file), " ", "WAVE");
    assert FileLine(e.file) == "FILE" + Quoted(e.file) + " " + "WAVE";
    NumbersAreTidy("TRACK", e.number);
    JoinedIsTidy("TRACK" + " " + e.number, " ", "AUDIO");
    assert TrackLine(e.number) == "TRACK" + " " + e.number + " " + "AUDIO";
    QuotesAreTidy("TITLE", e.title);
    QuotesAreTidy("PERFORMER", e.artist);
    TimesAreTidy(e.time);
  }

  lemma {:induction false} EntriesAreTidy(entries: seq<Entry>)
    requires forall k | 0 <= k < |entries| :: IsEntry(entries[k])
    ensures AllTidy(AllEntryLines(entries))
  {
    if entries != [] {
      EntriesAreTidy(entries[..|entries| - 1]);
      EntryIsTidy(entries[|entries| - 1]);
    }
  }

  /** A whole sheet is read as it was written. */
  lemma SheetIsRead(l: Layout, h: Head, entries: seq<Entry>) returns (sheet: Sheet)
    requires IsLayout(l) && IsHead(h) && AreEntries(entries)
    ensures AfterLines(NEW_SHEET, Lines(SheetText(l, h, entries))) == Some(sheet)
    ensures IsWritten(sheet, h, entries) && Finished(sheet.tracks) == sheet.tracks
    ensures SheetText(l, h, entries) != ""
  {
    HeadIsTidy(h);
    EntriesAreTidy(entries);
    LinesAreRead(l, SheetLines(h, entries));
    sheet := EntriesAreRead(h, entries);
    if entries != [] {
      var last := |entries| - 1;
      assert sheet.tracks[last] == TrackOf(entries, last);
    }
  }

  method ReadSheet(l: Layout, h: Head, entries: seq<Entry>) returns (document: CueDocument)
    requires IsLayout(l) && IsHead(h) && AreEntries(entries) && entries != []
    ensures IsWritten(document.sheet, h, entries)
  {
    ghost var sheet := SheetIsRead(l, h, entries);
    document := new CueDocument();
    var ok := document.ParseTag(SheetText(l, h, entries));
    assert ok;
  }

  /** The tracks are in one file, each but the last at least 38 frames long. */
  ghost predicate IsOneRecording(entries: seq<Entry>)
    requires AreEntries(entries)
  {
    && entries != []
    && (forall k | 0 <= k < |entries| :: entries[k].file == entries[0].file)
    && forall k | 0 < k < |entries| :: StartOf(entries, k - 1) + 38 <= StartOf(entries, k)
  }

  ghost function StartOf(entries: seq<Entry>, k: nat): nat
    requires AreEntries(entries) && k < |entries|
  {
    assert IsEntry(entries[k]);
    Frames(entries[k].time)
  }

  /** From what was written to the songs: they add up to the recording, but for half a second
      per track, and another second if it is over before its last track. */
  method LoadWritten(l: Layout, h: Head, entries: seq<Entry>, path: string, tagDuration: int)
    returns (durations: seq<int>, total: int)
    requires IsLayout(l) && IsHead(h) && AreEntries(entries) && IsOneRecording(entries) && tagDuration > 0
    ensures |durations| == |entries|
    ensures var error := 75 * total - (75 * tagDuration - StartOf(entries, 0));
            var late := 75 * tagDuration - StartOf(entries, |entries| - 1) < -37;
            -37 * |entries| <= error <= 37 * |entries| + if late then 74 else 0
  {
    ghost var sheet := SheetIsRead(l, h, entries);
    var ok;
    ok, durations, total := LoadEmbedded(SheetText(l, h, entries), path, tagDuration);
    assert ok;
    WrittenIsOneFile(h, entries, sheet, tagDuration);
    DurationsAddUp(sheet.tracks, tagDuration);
  }

  lemma WrittenIsOneFile(h: Head, entries: seq<Entry>, sheet: Sheet, tagDuration: int)
    requires IsHead(h) && AreEntries(entries) && IsOneRecording(entries) && tagDuration > 0
    requires IsWritten(sheet, h, entries)
    ensures OneFile(sheet.tracks, tagDuration)
    ensures sheet.tracks[0].start == StartOf(entries, 0)
    ensures sheet.tracks[|entries| - 1].start == StartOf(entries, |entries| - 1)
  {
    var n := |entries|;
    assert sheet.tracks[0] == TrackOf(entries, 0) && sheet.tracks[n - 1] == TrackOf(entries, n - 1);
    forall i, j | 0 <= i < j < n && j == i + 1
      ensures sheet.tracks[i].end == sheet.tracks[j].start && sheet.tracks[i].start + 38 <= sheet.tracks[j].start
    {
      assert sheet.tracks[i] == TrackOf(entries, i) && sheet.tracks[j] == TrackOf(entries, j);
      assert StartOf(entries, j - 1) + 38 <= StartOf(entries, j);
    }
  }
}
