/** The rotating JSONL stream and its reader (backend/app/v2/logging.py): what the backups keep of
    everything written. */
module LogFiles {
  import opened Utf8

  /** One JSON line, without its newline. */
  datatype Line = Line(text: string)

  function LineBytes(line: Line): nat {
    TextBytes(line.text) + 1
  }

  /** The size of a file: every line ends with a newline. */
  function FileBytes(lines: seq<Line>): nat {
    if lines == [] then 0 else FileBytes(lines[..|lines| - 1]) + LineBytes(lines[|lines| - 1])
  }

  lemma EmptyMeansNoBytes(lines: seq<Line>)
    ensures FileBytes(lines) == 0 <==> lines == []
  {
  }

  /** The files on disk: 0 is the current one, `i` the backup with suffix `.i`. */
  type Files = map<nat, seq<Line>>

  function LinesOf(files: Files, i: nat): seq<Line> {
    if i in files then files[i] else []
  }

  /** Backups from `n` down to 1, then the current file. */
  function Retained(files: Files, n: nat): seq<Line> {
    if n == 0 then LinesOf(files, 0) else LinesOf(files, n) + Retained(files, n - 1)
  }

  ghost predicate Suffix(part: seq<Line>, whole: seq<Line>) {
    |part| <= |whole| && part == whole[|whole| - |part|..]
  }

  /** Within the limit, or a single line that is too long by itself. */
  predicate SizeOk(lines: seq<Line>, maxBytes: int) {
    FileBytes(lines) <= maxBytes || |lines| <= 1
  }

  ghost predicate Sized(files: Files, last: nat, maxBytes: int) {
    forall i: nat :: i in files ==> i <= last && SizeOk(files[i], maxBytes)
  }

  /** The current file is not empty and the line no longer fits. */
  predicate Rotates(current: seq<Line>, line: Line, maxBytes: int) {
    FileBytes(current) != 0 && FileBytes(current) + LineBytes(line) > maxBytes
  }

  /** What a rotation leaves of the retained lines: all but the oldest file's. */
  function Kept(files: Files, n: nat): seq<Line> {
    if n == 0 then [] else Retained(files, n - 1)
  }

  /** The files after a write. */
  function Written(files: Files, n: nat, maxBytes: int, line: Line): Files {
    var room := if Rotates(LinesOf(files, 0), line, maxBytes) then Shifted(files, n) else files;
    room[0 := LinesOf(room, 0) + [line]]
  }

  class RotatingStream {
    const maxBytes: int
    const backupCount: nat
    var files: Files
    /** Every line ever written. */
    ghost var history: seq<Line>

    ghost predicate Valid()
      reads this
    {
      && 0 in files
      && Sized(files, backupCount, maxBytes)
      && Suffix(Retained(files, backupCount), history)
    }

    constructor (maxBytes: int, backupCount: nat)
      ensures Valid() && history == [] && this.maxBytes == maxBytes && this.backupCount == backupCount
    {
      this.maxBytes, this.backupCount := maxBytes, backupCount;
      files, history := map[0 := []], [];
      new;
      NothingRetained(files, backupCount);
    }

    /** Afterwards the backups oldest-first and the current file are still a contiguous end of all
        lines written; a write loses at most the one file a rotation pushes out. */
    method Write(line: Line)
      requires Valid()
      modifies this
      ensures Valid() && history == old(history) + [line]
      ensures files == Written(old(files), backupCount, maxBytes, line)
      ensures Retained(files, backupCount) ==
              (if Rotates(old(files[0]), line, maxBytes) then Kept(old(files), backupCount)
               else Retained(old(files), backupCount)) + [line]
    {
      EmptyMeansNoBytes(files[0]);
      if Rotates(files[0], line, maxBytes) {
        Rotate();
      }
      Append(line);
    }

    method Append(line: Line)
      requires Valid() && (files[0] == [] || FileBytes(files[0]) + LineBytes(line) <= maxBytes)
      modifies this
      ensures Valid() && history == old(history) + [line]
      ensures files == old(files)[0 := old(files)[0] + [line]]
      ensures Retained(files, backupCount) == Retained(old(files), backupCount) + [line]
    {
      AppendKeeps(files, line, backupCount);
      SuffixGrows(Retained(files, backupCount), history, line);
      StaysInSize(files[0], line, maxBytes);
      files := files[0 := files[0] + [line]];
      history := history + [line];
    }

    /** `_rotate`: the oldest backup goes, every other file moves up by one. */
    method Rotate()
      requires Valid()
      modifies this`files
      ensures Valid() && files[0] == [] && files == Shifted(old(files), backupCount)
      ensures Retained(files, backupCount) == Kept(old(files), backupCount)
    {
      OldestFirst(files, backupCount, history);
      ShiftedSizes(files, backupCount, maxBytes);
      ShiftKeeps(files, backupCount, backupCount);
      ShiftFiles();
    }

    method ShiftFiles()
      requires 0 in files && forall i: nat :: i in files ==> i <= backupCount
      modifies this`files
      ensures files == Shifted(old(files), backupCount)
    {
      if backupCount != 0 {
        ghost var before := files;
        files := files - {backupCount};
        for index := backupCount downto 1
          invariant MovedUp(before, files, index, backupCount)
        {
          MovesUp(before, files, index, backupCount);
          if index in files {
            files := Rename(files, index, index + 1);
          }
        }
        MovedUpIsShifted(before, files, backupCount);
        files := Rename(files, 0, 1);
      } else {
        files := files - {0};
      }
      files := files[0 := []];
    }
  }

  /** The files after a rotation: an empty one, and each old one but the last a place higher. */
  function Shifted(before: Files, last: nat): Files {
    map i: nat | 0 <= i <= last && Arrives(before, i) :: if i == 0 then [] else before[i - 1]
  }

  predicate Arrives(before: Files, i: nat) {
    i == 0 || i - 1 in before
  }

  lemma MovedUpIsShifted(before: Files, files: Files, last: nat)
    requires 0 in before && last > 0 && MovedUp(before, files, 1, last)
    ensures 0 in files && Rename(files, 0, 1)[0 := []] == Shifted(before, last)
  {
    assert Origin(0, 1) in before;
    forall i: nat ensures i in Rename(files, 0, 1)[0 := []] <==> i in Shifted(before, last) {
      assert i > 1 ==> Origin(i, 1) == i - 1;
    }
    forall i: nat | i in Shifted(before, last) ensures Rename(files, 0, 1)[0 := []][i] == Shifted(before, last)[i] {
      assert i > 1 ==> Origin(i, 1) == i - 1;
    }
  }

  lemma ShiftedSizes(before: Files, last: nat, maxBytes: int)
    requires Sized(before, last, maxBytes)
    ensures Sized(Shifted(before, last), last, maxBytes)
  {
  }

  /** `source.replace(destination)` */
  function Rename(files: Files, source: nat, destination: nat): (after: Files)
    requires source in files && source != destination
    ensures forall i: nat :: i in after <==> i == destination || (i in files && i != source)
    ensures forall i: nat :: i in after ==> after[i] == if i == destination then files[source] else files[i]
  {
    files[destination := files[source]] - {source}
  }

  /** Where the file `i` came from while the files below `index` have not moved yet. */
  function Origin(i: nat, index: nat): nat {
    if i < index || i == 0 then i else i - 1
  }

  /** The backups from `index` on stand one place higher; the last one is gone. */
  ghost predicate MovedUp(before: Files, files: Files, index: nat, last: nat) {
    forall i: nat :: (i in files <==> i <= last && i != index && Origin(i, index) in before)
                && (i in files ==> files[i] == before[Origin(i, index)])
  }

  lemma MovesUp(before: Files, files: Files, index: nat, last: nat)
    requires 0 < index < last && MovedUp(before, files, index + 1, last)
    ensures MovedUp(before, if index in files then Rename(files, index, index + 1) else files, index, last)
  {
  }

  lemma SuffixGrows(part: seq<Line>, whole: seq<Line>, line: Line)
    requires Suffix(part, whole)
    ensures Suffix(part + [line], whole + [line])
  {
  }

  lemma StaysInSize(lines: seq<Line>, line: Line, maxBytes: int)
    requires lines == [] || FileBytes(lines) + LineBytes(line) <= maxBytes
    ensures SizeOk(lines + [line], maxBytes)
  {
    assert (lines + [line])[..|lines|] == lines;
  }

  lemma {:induction false} AppendKeeps(files: Files, line: Line, n: nat)
    requires 0 in files
    ensures Retained(files[0 := files[0] + [line]], n) == Retained(files, n) + [line]
  {
    if n > 0 {
      AppendKeeps(files, line, n - 1);
    }
  }

  /** The rotated files hold what the files below the last held. */
  lemma {:induction false} ShiftKeeps(before: Files, last: nat, n: nat)
    requires n <= last
    ensures Retained(Shifted(before, last), n) == Kept(before, n)
  {
    if n > 0 {
      ShiftKeeps(before, last, n - 1);
    }
  }

  /** Dropping the last backup drops the oldest retained lines. */
  lemma OldestFirst(files: Files, n: nat, history: seq<Line>)
    requires Suffix(Retained(files, n), history)
    ensures Suffix(Kept(files, n), history)
  {
  }

  lemma {:induction false} NothingRetained(files: Files, n: nat)
    requires files == map[0 := []]
    ensures Retained(files, n) == []
  {
    if n > 0 {
      NothingRetained(files, n - 1);
    }
  }

  // ---------------------------------------------------------------- many writes

  function WrittenAll(files: Files, n: nat, maxBytes: int, lines: seq<Line>): Files {
    if lines == [] then files
    else Written(WrittenAll(files, n, maxBytes, lines[..|lines| - 1]), n, maxBytes, lines[|lines| - 1])
  }

  /** The write rotates while the last backup holds lines. */
  predicate PushesOut(files: Files, n: nat, maxBytes: int, line: Line) {
    Rotates(LinesOf(files, 0), line, maxBytes) && LinesOf(files, n) != []
  }

  /** A write adds its line to what is retained, and loses something exactly when it pushes out a file
      that is not empty. */
  lemma WriteLosesIffItPushesOut(files: Files, n: nat, maxBytes: int, line: Line)
    requires 0 in files
    ensures 0 in Written(files, n, maxBytes, line)
    ensures Retained(Written(files, n, maxBytes, line), n) == Retained(files, n) + [line]
            <==> !PushesOut(files, n, maxBytes, line)
  {
    if Rotates(LinesOf(files, 0), line, maxBytes) {
      ShiftKeeps(files, n, n);
      AppendKeeps(Shifted(files, n), line, n);
    } else {
      AppendKeeps(files, line, n);
    }
    assert Retained(files, n) == LinesOf(files, n) + Kept(files, n);
  }

  // ---------------------------------------------------------------- what a file holds

  /** The text of a file. */
  function TextOf(lines: seq<Line>): string {
    if lines == [] then "" else TextOf(lines[..|lines| - 1]) + (lines[|lines| - 1].text + "\n")
  }

  lemma {:induction false} FileBytesAreItsText(lines: seq<Line>)
    ensures FileBytes(lines) == TextBytes(TextOf(lines))
  {
    if lines != [] {
      var rest, last := lines[..|lines| - 1], lines[|lines| - 1].text;
      FileBytesAreItsText(rest);
      TextBytesAdd(TextOf(rest), last + "\n");
      TextBytesAdd(last, "\n");
      assert TextBytes("\n") == 1;
    }
  }

  /** A write starts a new file exactly when the current one holds something and would grow past
      `maxBytes`. */
  lemma RotatesMeans(current: seq<Line>, line: Line, maxBytes: int)
    ensures Rotates(current, line, maxBytes)
            <==> current != [] && TextBytes(TextOf(current) + line.text + "\n") > maxBytes
  {
    assert (current + [line])[..|current|] == current;
    assert TextOf(current) + line.text + "\n" == TextOf(current + [line]);
    FileBytesAreItsText(current + [line]);
    EmptyMeansNoBytes(current);
  }
}
