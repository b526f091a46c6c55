/**
 * Checkpoint file names and the choice of the latest checkpoint: the name
 * `save_checkpoint` is given at a step, the parse of a step number out of a
 * name by the pattern `checkpoint_(?P<number>\d+)\.pth\.tar$`, and the
 * selection `load_latest_checkpoint` makes from the names found on disk.
 */
module Checkpoints {

  datatype Option<T> = None | Some(value: T)

  const DIRECTORY: string := "dqn_checkpoints/"
  const PREFIX: string := "checkpoint_"
  const SUFFIX: string := ".pth.tar"

  predicate IsDigit(c: char)
  {
    '0' <= c <= '9'
  }

  predicate AllDigits(s: string)
  {
    forall i :: 0 <= i < |s| ==> IsDigit(s[i])
  }

  function Pow10(n: nat): (p: nat)
    ensures p > 0
  {
    if n == 0 then 1 else 10 * Pow10(n - 1)
  }

  /**
   * `int(ds)` for a string of decimal digits; leading zeros are allowed.
   * `n` digits denote less than `10^n`, and at least `10^(n-1)` when the
   * first is not a zero.
   */
  function Value(ds: string): (v: nat)
    requires AllDigits(ds)
    ensures v < Pow10(|ds|)
    ensures |ds| > 0 && ds[0] != '0' ==> Pow10(|ds| - 1) <= v
  {
    if ds == [] then 0 else 10 * Value(ds[..|ds| - 1]) + (ds[|ds| - 1] as int - '0' as int)
  }

  /** `str(n)`: the decimal digits of `n`, without leading zeros. */
  function Decimal(n: nat): (s: string)
    ensures |s| > 0 && AllDigits(s)
    ensures Value(s) == n
    ensures |s| > 1 ==> s[0] != '0'
  {
    var last := [('0' as int + n % 10) as char];
    if n < 10 then last
    else
      var s := Decimal(n / 10) + last;
      assert s[..|s| - 1] == Decimal(n / 10);
      s
  }

  /**
   * The name `save_checkpoint` writes at step `step`: a file of the
   * checkpoint directory, named by the prefix, decimal digits and the suffix.
   */
  function SaveName(step: nat): (name: string)
    ensures |DIRECTORY + PREFIX| < |name| - |SUFFIX|
    ensures name[..|DIRECTORY + PREFIX|] == DIRECTORY + PREFIX
    ensures AllDigits(name[|DIRECTORY + PREFIX|..|name| - |SUFFIX|])
    ensures EndsWith(name, SUFFIX)
  {
    DIRECTORY + PREFIX + Decimal(step) + SUFFIX
  }

  predicate EndsWith(s: string, suffix: string)
  {
    |suffix| <= |s| && s[|s| - |suffix|..] == suffix
  }

  /** The length of the run of decimal digits that ends `s`. */
  function TrailingDigits(s: string): (k: nat)
    ensures k <= |s|
    ensures AllDigits(s[|s| - k..])
    ensures k < |s| ==> !IsDigit(s[|s| - k - 1])
  {
    if s != [] && IsDigit(s[|s| - 1]) then
      var init := s[..|s| - 1];
      var k := TrailingDigits(init);
      assert s[|s| - 1 - k..] == init[|init| - k..] + [s[|s| - 1]];
      AllDigitsSnoc(init[|init| - k..], s[|s| - 1]);
      k + 1
    else 0
  }

  lemma AllDigitsSnoc(ds: string, c: char)
    requires AllDigits(ds) && IsDigit(c)
    ensures AllDigits(ds + [c])
  {
  }

  /**
   * `r.search(name)` followed by `int(m.group('number'))`, or `None` when the
   * search finds no match.
   */
  function ParseStep(name: string): (r: Option<nat>)
    ensures r.Some? ==> EndsWith(Line(name), SUFFIX) && |PREFIX| + |SUFFIX| < |Line(name)|
  {
    ParseLine(Line(name))
  }

  /** `$` matches at the end of a name or just before a final newline. */
  function Line(name: string): string
  {
    if |name| > 0 && name[|name| - 1] == '\n' then name[..|name| - 1] else name
  }

  /** A match must end with the suffix, at the end of the line. */
  function ParseLine(line: string): (r: Option<nat>)
    ensures r.Some? ==> EndsWith(line, SUFFIX) && |PREFIX| + |SUFFIX| < |line|
  {
    if EndsWith(line, SUFFIX) then ParseStem(line[..|line| - |SUFFIX|]) else None
  }

  /**
   * The digits of a match run up to the suffix; since the prefix ends in `_`,
   * they are the whole run of digits in front of the suffix, and the prefix
   * must come right before them.
   */
  function ParseStem(stem: string): (r: Option<nat>)
    ensures r.Some? ==> |PREFIX| < |stem|
  {
    var k := TrailingDigits(stem);
    if k == 0 || !EndsWith(stem[..|stem| - k], PREFIX) then None
    else Some(Value(stem[|stem| - k..]))
  }

  /** `name` is some text, the prefix, digits, the suffix, and possibly a newline. */
  ghost predicate Shaped(name: string, head: string, digits: string, newline: string)
  {
    name == head + PREFIX + digits + SUFFIX + newline &&
    digits != [] && AllDigits(digits) && (newline == "" || newline == "\n")
  }

  /** The digits that follow a non-digit are exactly the trailing run. */
  lemma {:induction false} TrailingDigitsAfter(head: string, digits: string)
    requires head != [] && !IsDigit(head[|head| - 1])
    requires AllDigits(digits)
    ensures TrailingDigits(head + digits) == |digits|
  {
    if digits == [] {
      assert head + digits == head;
    } else {
      var init := digits[..|digits| - 1];
      assert (head + digits)[..|head + digits| - 1] == head + init;
      TrailingDigitsAfter(head, init);
    }
  }

  /** Every name of the pattern's shape parses, to the value of its digits. */
  lemma {:induction false} ParseStepComplete(head: string, digits: string, newline: string)
    requires digits != [] && AllDigits(digits)
    requires newline == "" || newline == "\n"
    ensures ParseStep(head + PREFIX + digits + SUFFIX + newline) == Some(Value(digits))
  {
    var stem := head + PREFIX + digits;
    LineOfMatch(stem + SUFFIX, newline);
    assert head + PREFIX + digits + SUFFIX + newline == stem + SUFFIX + newline;
    ParseLineOfMatch(stem);
    ParseStemOfMatch(head, digits);
  }

  /** The line of a name ending in the suffix is the name without its final newline. */
  lemma {:induction false} LineOfMatch(body: string, newline: string)
    requires EndsWith(body, SUFFIX)
    requires newline == "" || newline == "\n"
    ensures Line(body + newline) == body
  {
    var name := body + newline;
    if newline == "\n" {
      assert name[..|name| - 1] == body;
    } else {
      assert name == body;
      assert name[|name| - 1] == body[|body| - |SUFFIX|..][|SUFFIX| - 1] == 'r';
    }
  }

  /** A line ending in the suffix is parsed by what comes in front of it. */
  lemma {:induction false} ParseLineOfMatch(stem: string)
    ensures EndsWith(stem + SUFFIX, SUFFIX)
    ensures ParseLine(stem + SUFFIX) == ParseStem(stem)
  {
    var line := stem + SUFFIX;
    assert line[|line| - |SUFFIX|..] == SUFFIX;
    assert line[..|line| - |SUFFIX|] == stem;
  }

  /** The prefix followed by digits parses to the digits' value. */
  lemma {:induction false} ParseStemOfMatch(head: string, digits: string)
    requires digits != [] && AllDigits(digits)
    ensures ParseStem(head + PREFIX + digits) == Some(Value(digits))
  {
    var stem := head + PREFIX + digits;
    TrailingDigitsAfter(head + PREFIX, digits);
    assert stem == (head + PREFIX) + digits;
    assert stem[..|stem| - |digits|] == head + PREFIX;
    assert stem[|stem| - |digits|..] == digits;
    assert EndsWith(head + PREFIX, PREFIX) by {
      assert (head + PREFIX)[|head + PREFIX| - |PREFIX|..] == PREFIX;
    }
  }

  /** Every name that parses has the pattern's shape, and parses to the value of its digits. */
  lemma {:induction false} ParseStepSound(name: string)
    requires ParseStep(name).Some?
    ensures exists head, digits, newline :: Shaped(name, head, digits, newline) && ParseStep(name) == Some(Value(digits))
  {
    var line := Line(name);
    var newline := if |name| > 0 && name[|name| - 1] == '\n' then "\n" else "";
    assert name == line + newline;
    var stem := line[..|line| - |SUFFIX|];
    assert line == stem + SUFFIX;
    var head, digits := StemShape(stem);
    assert name == head + PREFIX + digits + SUFFIX + newline;
    assert Shaped(name, head, digits, newline);
  }

  /** A stem that parses is some text, the prefix and the digits it parses to. */
  lemma {:induction false} StemShape(stem: string) returns (head: string, digits: string)
    requires ParseStem(stem).Some?
    ensures stem == head + PREFIX + digits
    ensures digits != [] && AllDigits(digits)
    ensures ParseStem(stem) == Some(Value(digits))
  {
    var k := TrailingDigits(stem);
    digits := stem[|stem| - k..];
    head := stem[..|stem| - k - |PREFIX|];
    assert stem[..|stem| - k] == head + PREFIX;
    assert stem == stem[..|stem| - k] + digits;
  }

  /** The name a checkpoint is saved under parses back to its step. */
  lemma {:induction false} SaveNameRoundTrip(step: nat)
    ensures ParseStep(SaveName(step)) == Some(step)
  {
    ParseStepComplete(DIRECTORY, Decimal(step), "");
    assert SaveName(step) == DIRECTORY + PREFIX + Decimal(step) + SUFFIX + "";
  }

  /** A file with the step number parsed from its name: `[int(...), x]`. */
  datatype Entry = Entry(step: nat, file: string)

  datatype Parsed = Entries(entries: seq<Entry>) | Unparsable(file: string)

  /**
   * `list(map(lambda x: [int(r.search(x).group('number')), x], files))`:
   * fails at the first name the pattern does not match.
   */
  function ParseAll(files: seq<string>): (r: Parsed)
    ensures r.Entries? <==> forall i :: 0 <= i < |files| ==> ParseStep(files[i]).Some?
    ensures r.Entries? ==> |r.entries| == |files|
    ensures r.Entries? ==> forall i :: 0 <= i < |files| ==>
      ParseStep(files[i]).Some? && r.entries[i] == Entry(ParseStep(files[i]).value, files[i])
    ensures r.Unparsable? ==> exists i: nat :: FirstUnparsable(files, i) && files[i] == r.file
  {
    var steps := Steps(files);
    var r := Collect(files, steps);
    if r.Unparsable? then
      var i :| 0 <= i < |files| && files[i] == r.file && steps[i].None? && forall j :: 0 <= j < i ==> steps[j].Some?;
      assert FirstUnparsable(files, i);
      r
    else r
  }

  /** `files[i]` is the first name the pattern does not match. */
  ghost predicate FirstUnparsable(files: seq<string>, i: nat)
  {
    i < |files| && ParseStep(files[i]).None? &&
    forall j :: 0 <= j < i ==> ParseStep(files[j]).Some?
  }

  /** The step parsed from each name. */
  function Steps(files: seq<string>): (r: seq<Option<nat>>)
    ensures |r| == |files|
    ensures forall i :: 0 <= i < |files| ==> r[i] == ParseStep(files[i])
  {
    seq(|files|, i requires 0 <= i < |files| => ParseStep(files[i]))
  }

  /** Pairs each file with its parsed step, stopping at the first that has none. */
  function Collect(files: seq<string>, steps: seq<Option<nat>>): (r: Parsed)
    requires |steps| == |files|
    ensures r.Entries? <==> forall i :: 0 <= i < |files| ==> steps[i].Some?
    ensures r.Entries? ==> |r.entries| == |files|
    ensures r.Entries? ==> forall i :: 0 <= i < |files| ==>
      steps[i].Some? && r.entries[i] == Entry(steps[i].value, files[i])
    ensures r.Unparsable? ==> exists i :: 0 <= i < |files| && files[i] == r.file && steps[i].None? &&
                                             forall j :: 0 <= j < i ==> steps[j].Some?
  {
    if files == [] then Entries([])
    else
      match steps[0]
      case None => Unparsable(files[0])
      case Some(n) =>
        match Collect(files[1..], steps[1..])
        case Unparsable(f) =>
          var i :| 0 <= i < |files| - 1 && files[1..][i] == f && steps[1..][i].None? &&
                   forall j :: 0 <= j < i ==> steps[1..][j].Some?;
          assert files[i + 1] == f && steps[i + 1].None?;
          assert forall j :: 1 <= j < i + 1 ==> steps[j] == steps[1..][j - 1];
          Unparsable(f)
        case Entries(es) =>
          var r := [Entry(n, files[0])] + es;
          assert forall j :: 1 <= j < |files| ==> r[j] == es[j - 1] && steps[j] == steps[1..][j - 1] && files[j] == files[1..][j - 1];
          Entries(r)
  }

  predicate SortedBySteps(s: seq<Entry>)
  {
    forall a, b :: 0 <= a < b < |s| ==> s[a].step <= s[b].step
  }

  /** Puts `e` after every entry of `s` whose step is at most `e`'s. */
  function Insert(e: Entry, s: seq<Entry>): (r: seq<Entry>)
    ensures |r| == |s| + 1
  {
    if s == [] then [e]
    else if s[0].step <= e.step then [s[0]] + Insert(e, s[1..])
    else [e] + s
  }

  /** Inserting adds exactly the new entry. */
  lemma {:induction false} InsertPermutes(e: Entry, s: seq<Entry>)
    ensures multiset(Insert(e, s)) == multiset(s) + multiset{e}
  {
    if s != [] && s[0].step <= e.step {
      InsertPermutes(e, s[1..]);
      assert s == [s[0]] + s[1..];
    }
  }

  /**
   * Inserting into a sorted sequence keeps it sorted, and every entry of the
   * result is the new one or no smaller than the old first entry.
   */
  lemma {:induction false} InsertSorted(e: Entry, s: seq<Entry>)
    requires SortedBySteps(s)
    ensures SortedBySteps(Insert(e, s))
    ensures forall i :: 0 <= i < |s| + 1 ==> Insert(e, s)[i].step == e.step || (s != [] && s[0].step <= Insert(e, s)[i].step)
  {
    if s != [] && s[0].step <= e.step {
      var rest := Insert(e, s[1..]);
      InsertSorted(e, s[1..]);
      assert forall i :: 0 <= i < |rest| ==> s[0].step <= rest[i].step;
      SortedCons(s[0], rest);
    } else if s != [] {
      SortedCons(e, s);
    }
  }

  /** An entry no later than any entry of a sorted sequence can go in front of it. */
  lemma SortedCons(x: Entry, t: seq<Entry>)
    requires SortedBySteps(t)
    requires forall i :: 0 <= i < |t| ==> x.step <= t[i].step
    ensures SortedBySteps([x] + t)
  {
    var r := [x] + t;
    forall a, b | 0 <= a < b < |r|
      ensures r[a].step <= r[b].step
    {
      assert r[b] == t[b - 1];
      if a > 0 {
        assert r[a] == t[a - 1];
      }
    }
  }

  /**
   * `sorted(entries, key=lambda x: x[0])`: an insertion sort that takes the
   * entries in input order and inserts each after the equal steps already
   * placed. Of the stability of Python's sort, the part the selection needs
   * is proved: among the entries of largest step, the last in input order
   * ends up last (`SortedLast`).
   */
  function SortBySteps(s: seq<Entry>): (r: seq<Entry>)
    ensures |r| == |s|
    ensures SortedBySteps(r)
  {
    if s == [] then []
    else
      var sorted := SortBySteps(s[..|s| - 1]);
      InsertSorted(s[|s| - 1], sorted);
      Insert(s[|s| - 1], sorted)
  }

  /** The sort only reorders entries: it is a permutation of its input. */
  lemma {:induction false} SortByStepsPermutes(s: seq<Entry>)
    ensures multiset(SortBySteps(s)) == multiset(s)
  {
    if s != [] {
      var init, x := s[..|s| - 1], s[|s| - 1];
      var sorted := SortBySteps(init);
      assert SortBySteps(s) == Insert(x, sorted);
      SortByStepsPermutes(init);
      InsertPermutes(x, sorted);
      assert s == init + [x];
      assert multiset(s) == multiset(init) + multiset{x};
    }
  }

  /** The position of the entry with the largest step, the last one among equals. */
  function LatestIndex(s: seq<Entry>): (k: nat)
    requires s != []
    ensures k < |s|
    ensures forall j :: 0 <= j < |s| ==> s[j].step <= s[k].step
    ensures forall j :: k < j < |s| ==> s[j].step < s[k].step
  {
    if |s| == 1 then 0
    else
      var k := LatestIndex(s[..|s| - 1]);
      if s[k].step <= s[|s| - 1].step then |s| - 1 else k
  }

  /** Inserting into a sorted sequence leaves its last entry last unless the new entry's step is at least as large. */
  lemma {:induction false} InsertLast(e: Entry, s: seq<Entry>)
    requires SortedBySteps(s) && s != []
    ensures Insert(e, s)[|s|] == if s[|s| - 1].step <= e.step then e else s[|s| - 1]
  {
    if |s| == 1 {
    } else if s[0].step <= e.step {
      InsertLast(e, s[1..]);
    } else {
    }
  }

  /** The last entry of the sort is the last entry of largest step in input order. */
  lemma {:induction false} SortedLast(s: seq<Entry>)
    requires s != []
    ensures SortBySteps(s)[|s| - 1] == s[LatestIndex(s)]
  {
    var init := s[..|s| - 1];
    if |s| > 1 {
      SortedLast(init);
      InsertLast(s[|s| - 1], SortBySteps(init));
      assert init[LatestIndex(init)] == s[LatestIndex(init)];
    }
  }

  /** What `load_latest_checkpoint` does with the names `glob` returned. */
  datatype Selection =
    | NoCheckpoint          // an empty list: training starts from scratch
    | Latest(file: string)  // the file to load
    | NoMatch(file: string) // `r.search` returned None and `.group` raised

  function SelectLatest(files: seq<string>): (r: Selection)
    ensures r.NoCheckpoint? <==> files == []
  {
    if files == [] then NoCheckpoint
    else
      match ParseAll(files)
      case Unparsable(f) => NoMatch(f)
      case Entries(es) => Latest(LastSorted(es).file)
  }

  /** `sorted(entries, key=...)[-1]`: the last entry of largest step. */
  function LastSorted(es: seq<Entry>): (e: Entry)
    requires es != []
    ensures e == es[LatestIndex(es)]
  {
    var sorted := SortBySteps(es);
    SortedLast(es);
    sorted[|sorted| - 1]
  }

  /** `files[k]` has the largest step of all the names, and no later name has that step. */
  ghost predicate Newest(files: seq<string>, k: nat)
    requires forall i :: 0 <= i < |files| ==> ParseStep(files[i]).Some?
  {
    k < |files| &&
    (forall j :: 0 <= j < |files| ==> ParseStep(files[j]).value <= ParseStep(files[k]).value) &&
    (forall j :: k < j < |files| ==> ParseStep(files[j]).value < ParseStep(files[k]).value)
  }

  /**
   * When every name parses, the file loaded is one of largest step, and
   * no later name in the list has that step.
   */
  lemma {:induction false} SelectLatestIsNewest(files: seq<string>)
    requires files != []
    requires forall i :: 0 <= i < |files| ==> ParseStep(files[i]).Some?
    ensures SelectLatest(files).Latest?
    ensures exists k: nat :: Newest(files, k) && SelectLatest(files) == Latest(files[k])
  {
    var es := ParseAll(files).entries;
    var k := LatestIndex(es);
    SelectsLatestEntry(files);
    LatestEntryIsNewest(files, es);
    assert Newest(files, k) && SelectLatest(files) == Latest(files[k]);
  }

  /** When every name parses, the selection loads the file of the latest entry. */
  lemma {:induction false} SelectsLatestEntry(files: seq<string>)
    requires files != [] && ParseAll(files).Entries?
    ensures SelectLatest(files) == Latest(ParseAll(files).entries[LatestIndex(ParseAll(files).entries)].file)
  {
  }

  /** The latest of the parsed entries belongs to a newest name. */
  lemma {:induction false} LatestEntryIsNewest(files: seq<string>, es: seq<Entry>)
    requires files != [] && forall i :: 0 <= i < |files| ==> ParseStep(files[i]).Some?
    requires |es| == |files| && forall i :: 0 <= i < |files| ==> es[i] == Entry(ParseStep(files[i]).value, files[i])
    ensures Newest(files, LatestIndex(es)) && es[LatestIndex(es)].file == files[LatestIndex(es)]
  {
  }

  /** A name the pattern does not match makes the selection fail, at the first such name. */
  lemma {:induction false} SelectLatestFails(files: seq<string>, i: nat)
    requires i < |files| && ParseStep(files[i]).None?
    ensures SelectLatest(files).NoMatch?
    ensures exists k :: 0 <= k <= i && SelectLatest(files).file == files[k] && ParseStep(files[k]).None?
  {
  }

  /** The names of checkpoints saved at `steps`, in order. */
  function SaveNames(steps: seq<nat>): (r: seq<string>)
    ensures |r| == |steps|
    ensures forall i :: 0 <= i < |steps| ==> r[i] == SaveName(steps[i])
  {
    if steps == [] then [] else [SaveName(steps[0])] + SaveNames(steps[1..])
  }

  /**
   * Resuming after training: whatever order `glob` lists the checkpoints
   * in, the one loaded is the one saved at the largest step.
   */
  lemma {:induction false} LatestOfSaved(steps: seq<nat>)
    requires steps != []
    ensures exists k :: 0 <= k < |steps| && (forall j :: 0 <= j < |steps| ==> steps[j] <= steps[k]) &&
                        SelectLatest(SaveNames(steps)) == Latest(SaveName(steps[k]))
  {
    var files := SaveNames(steps);
    forall i | 0 <= i < |files|
      ensures ParseStep(files[i]) == Some(steps[i])
    {
      SaveNameRoundTrip(steps[i]);
    }
    SelectLatestIsNewest(files);
    var k: nat :| Newest(files, k) && SelectLatest(files) == Latest(files[k]);
    forall j | 0 <= j < |steps|
      ensures steps[j] <= steps[k]
    {
      assert ParseStep(files[j]).value <= ParseStep(files[k]).value;
    }
  }
}
