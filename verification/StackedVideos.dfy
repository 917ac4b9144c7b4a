/** Videos that are stacked from several files: the table of end times that
    `CApplication::PlayStack` builds, and `SeekTime`, `GetTime` and `GetTotalTime` over it. */
module StackedVideos {
  import opened Basics

  /** A number without its fraction. */
  function Truncate(r: real): int {
    if r >= 0.0 then r.Floor else -((-r).Floor)
  }

  /** Where part `i` begins, in seconds. */
  function StartOf(ends: seq<int>, i: nat): int
    requires i < |ends|
  {
    if i > 0 then ends[i - 1] else 0
  }

  ghost predicate NonDecreasing(ends: seq<int>) {
    && (forall i | 0 <= i < |ends| :: 0 <= ends[i])
    && forall i, j | 0 <= i < j < |ends| :: ends[i] <= ends[j]
  }

  /** Part `i` is the one that is shown at time `t`. */
  ghost predicate Shows(ends: seq<int>, i: nat, t: real) {
    i < |ends| && StartOf(ends, i) as real <= t < ends[i] as real
  }

  /** Each end is the part's start plus its duration in whole seconds. */
  ghost predicate IsTable(ends: seq<int>, durations: seq<Option<int>>) {
    && |ends| == |durations|
    && forall i: nat | i < |ends| ::
         durations[i].Some? && ends[i] == StartOf(ends, i) + TruncatedDiv(durations[i].value, 1000)
  }

  lemma NextEnd(ends: seq<int>, durations: seq<Option<int>>, duration: Option<int>, end: int)
    requires IsTable(ends, durations) && duration.Some?
    requires end == (if ends == [] then 0 else ends[|ends| - 1]) + TruncatedDiv(duration.value, 1000)
    ensures IsTable(ends + [end], durations + [duration])
  {
    var next := ends + [end];
    assert forall i: nat | i < |ends| :: StartOf(next, i) == StartOf(ends, i);
    assert StartOf(next, |ends|) == if ends == [] then 0 else ends[|ends| - 1];
  }

  /** Durations that are not negative give end times that do not decrease. */
  lemma TableIsNonDecreasing(ends: seq<int>, durations: seq<Option<int>>)
    requires IsTable(ends, durations)
    ensures (forall i | 0 <= i < |durations| :: durations[i].value >= 0) ==> NonDecreasing(ends)
  {
    if forall i | 0 <= i < |durations| :: durations[i].value >= 0 {
      forall j: nat | j < |ends| ensures ends[j] >= 0 && forall i | 0 <= i < j :: ends[i] <= ends[j] {
        EndsRise(ends, durations, j);
      }
    }
  }

  lemma {:induction false} EndsRise(ends: seq<int>, durations: seq<Option<int>>, j: nat)
    requires IsTable(ends, durations) && j < |ends|
    requires forall i | 0 <= i < |durations| :: durations[i].value >= 0
    ensures ends[j] >= 0 && forall i | 0 <= i < j :: ends[i] <= ends[j]
  {
    assert ends[j] == StartOf(ends, j) + TruncatedDiv(durations[j].value, 1000);
    if j > 0 {
      EndsRise(ends, durations, j - 1);
    }
  }

  /** What a seek asks for: nothing, a position in the part that plays, another
      part with a start offset, or a position in the file. */
  datatype Seek = Ignored | Within(milliseconds: int) | Switch(part: nat, startOffset: int) | Plain(milliseconds: int)

  /** What playing a stack begins with. */
  datatype Start = Beginning | From(part: nat, startOffset: int)

  /** The time that the player shows, in milliseconds, when it begins at an offset; there are
      75 of those to a second. */
  function FromOffset(startOffset: int): real {
    startOffset as real * 1000.0 / 75.0
  }

  /** The time that the player shows, in milliseconds, once the seek is done. */
  function PlayerTime(seek: Seek): real
    requires !seek.Ignored?
  {
    match seek
    case Within(milliseconds) => milliseconds as real
    case Switch(_, startOffset) => FromOffset(startOffset)
    case Plain(milliseconds) => milliseconds as real
  }

  /** How far short of its goal a seek may end. */
  function Grain(seek: Seek): real {
    if seek.Switch? then 1.0 / 75.0 else 1.0 / 1000.0
  }

  class Application {
    var ends: seq<int> // cumulative end times of the parts, in seconds
    var position: nat  // the part that plays

    constructor ()
      ensures ends == [] && position == 0
    {
      ends, position := [], 0;
    }

    /** Builds the table from the durations of the parts, in milliseconds; None is a part that cannot be measured. */
    method BuildTable(durations: seq<Option<int>>) returns (ok: bool)
      modifies `ends
      ensures ok <==> durations != [] && forall i | 0 <= i < |durations| :: durations[i].Some?
      ensures !ok ==> ends == []
      ensures ok ==> IsTable(ends, durations)
      ensures ok && (forall i | 0 <= i < |durations| :: durations[i].value >= 0) ==> NonDecreasing(ends)
    {
      if durations == [] {
        ends := [];
        return false;
      }
      var totalTime := 0;
      var table: seq<int> := [];
      var i := 0;
      while i < |durations|
        invariant 0 <= i <= |durations|
        invariant forall k | 0 <= k < i :: durations[k].Some?
        invariant IsTable(table, durations[..i]) && totalTime == if i == 0 then 0 else table[i - 1]
      {
        if durations[i].None? {
          ends := [];
          return false;
        }
        totalTime := totalTime + TruncatedDiv(durations[i].value, 1000);
        NextEnd(table, durations[..i], durations[i], totalTime);
        assert durations[..i + 1] == durations[..i] + [durations[i]];
        table := table + [totalTime];
        i := i + 1;
      }
      assert durations[..i] == durations;
      TableIsNonDecreasing(table, durations);
      ends := table;
      ok := true;
    }

    function TotalTime(): int
      reads this
      requires ends != []
    {
      ends[|ends| - 1]
    }

    /** The time in the whole stack, from the time that the player shows for its part, in milliseconds. */
    function Time(playerTime: real): real
      reads this
      requires ends == [] || position < |ends|
    {
      if ends == [] then playerTime / 1000.0 else StartOf(ends, position) as real + playerTime / 1000.0
    }

    /** Finds the part that shows time `t`; `Time` undoes the seek but for its grain. */
    method SeekTime(t: real) returns (seek: Seek)
      modifies `position
      ensures t < 0.0 ==> seek == Ignored && position == old(position)
      ensures NonDecreasing(ends) && ends != [] && 0.0 <= t < TotalTime() as real ==>
                && !seek.Ignored? && position < |ends| && (forall j: nat :: Shows(ends, j, t) <==> j == position)
                && (if position == old(position) then seek.Within? else seek.Switch? && seek.part == position)
                && Time(PlayerTime(seek)) <= t < Time(PlayerTime(seek)) + Grain(seek)
      ensures NonDecreasing(ends) && t >= 0.0 && (ends == [] || t >= TotalTime() as real) ==>
                seek == Plain(Truncate(t * 1000.0)) && position == old(position)
      ensures ends == [] && t >= 0.0 ==> Time(PlayerTime(seek)) <= t < Time(PlayerTime(seek)) + Grain(seek)
    {
      if t < 0.0 {
        return Ignored;
      }
      var i := 0;
      while i < |ends|
        invariant 0 <= i <= |ends| && position == old(position)
        invariant forall k | 0 <= k < i :: ends[k] as real <= t
      {
        if ends[i] as real > t {
          var startOfNewFile := if i > 0 then ends[i - 1] else 0;
          if startOfNewFile as real <= t {
            WithinIsExact(startOfNewFile, t);
            SwitchIsClose(startOfNewFile, t);
          }
          if position == i {
            return Within(Truncate((t - startOfNewFile as real) * 1000.0));
          }
          position := i;
          return Switch(i, Truncate((t - startOfNewFile as real) * 75.0));
        }
        i := i + 1;
      }
      WithinIsExact(0, t);
      seek := Plain(Truncate(t * 1000.0));
    }

    /** Where playing the stack begins when it is to go on at `seconds`. */
    method Resume(seconds: real) returns (start: Start)
      modifies `position
      ensures NonDecreasing(ends) && ends != [] && 0.0 < seconds < TotalTime() as real ==>
                && position < |ends| && (forall j: nat :: Shows(ends, j, seconds) <==> j == position)
                && start == From(position, ResumeOffset(StartOf(ends, position), seconds))
                && Time(FromOffset(start.startOffset)) <= seconds < Time(FromOffset(start.startOffset)) + 1.0
      ensures NonDecreasing(ends) && (ends == [] || !(0.0 < seconds < TotalTime() as real)) ==>
                start == Beginning && position == 0
    {
      position := 0;
      if seconds > 0.0 {
        var i := 0;
        while i < |ends|
          invariant 0 <= i <= |ends| && position == 0
          invariant forall k | 0 <= k < i :: ends[k] as real <= seconds
        {
          if seconds < ends[i] as real {
            var startOfPart := if i > 0 then ends[i - 1] else 0;
            if startOfPart as real <= seconds {
              ResumeLosesTheFraction(startOfPart, seconds);
            }
            position := i;
            return From(i, ResumeOffset(startOfPart, seconds));
          }
          i := i + 1;
        }
      }
      start := Beginning;
    }
  }

  lemma TruncateBelow(r: real)
    requires r >= 0.0
    ensures Truncate(r) as real <= r < Truncate(r) as real + 1.0
  {
  }

  /** Within a part, the time after the seek is at most a millisecond early. */
  lemma WithinIsExact(start: int, t: real)
    requires start as real <= t
    ensures var reached := start as real + Truncate((t - start as real) * 1000.0) as real / 1000.0;
            reached <= t < reached + 1.0 / 1000.0
  {
    TruncateBelow((t - start as real) * 1000.0);
  }

  /** In a new part, the offset that is stored, 75 to the second, is at most one of its units early. */
  lemma SwitchIsClose(start: int, t: real)
    requires start as real <= t
    ensures var reached := start as real + FromOffset(Truncate((t - start as real) * 75.0)) / 1000.0;
            reached <= t < reached + 1.0 / 75.0
  {
    TruncateBelow((t - start as real) * 75.0);
  }

  /** Where playing a stack from `t` seconds on begins: the cast applies before the
      multiplication, so the offset is a whole number of seconds. */
  function ResumeOffset(start: int, t: real): int {
    Truncate(t - start as real) * 75
  }

  /** Resuming keeps to the bound of a seek exactly when the fraction of a second is below 1/75. */
  lemma ResumeLosesTheFraction(start: int, t: real)
    requires start as real <= t
    ensures var reached := start as real + FromOffset(ResumeOffset(start, t)) / 1000.0;
            && reached <= t < reached + 1.0
            && (t < reached + 1.0 / 75.0 <==> (t - start as real) - Truncate(t - start as real) as real < 1.0 / 75.0)
  {
    TruncateBelow(t - start as real);
    var whole := Truncate(t - start as real);
    assert (whole * 75) as real * 1000.0 / 75.0 == whole as real * 1000.0;
  }
}
