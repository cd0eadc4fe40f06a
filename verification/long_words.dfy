/** The per-line work of the IO-bound demo: a line is split with
    `line.split("[\\PL]+")` (around maximal runs of non-letters) and the pieces of
    at least `LONG_LENGTH` characters are counted. Which characters are letters
    (Unicode category L) is left to the classifier `isLetter`, so every result
    here holds for any classification. Lengths are Java string lengths: UTF-16
    code units, so a character outside the Basic Multilingual Plane counts twice. */
module LongWords {

  /** Words of at least this many UTF-16 code units are counted. */
  const LONG_LENGTH: nat := 12

  predicate AllLetters(isLetter: char -> bool, w: string) {
    forall j :: 0 <= j < |w| ==> isLetter(w[j])
  }

  predicate NoLetters(isLetter: char -> bool, s: string) {
    forall j :: 0 <= j < |s| ==> !isLetter(s[j])
  }

  /** UTF-16 code units of one character: a surrogate pair above U+FFFF. */
  function Units(c: char): nat {
    if c as int > 0xFFFF then 2 else 1
  }

  /** Java's `String.length()`: the number of UTF-16 code units of `s`. */
  function Utf16Length(s: string): (n: nat)
    ensures |s| <= n <= 2 * |s|
  {
    if s == [] then 0 else Units(s[0]) + Utf16Length(s[1..])
  }

  lemma {:induction false} Utf16LengthAppend(a: string, b: string)
    ensures Utf16Length(a + b) == Utf16Length(a) + Utf16Length(b)
    decreases |a|
  {
    if a != [] {
      assert (a + b)[1..] == a[1..] + b;
      Utf16LengthAppend(a[1..], b);
    } else {
      assert a + b == b;
    }
  }

  /** Length of the longest prefix of `s` made of letters. */
  function LetterRun(isLetter: char -> bool, s: string): (k: nat)
    ensures k <= |s|
    ensures AllLetters(isLetter, s[..k])
    ensures k < |s| ==> !isLetter(s[k])
  {
    if s == [] || !isLetter(s[0]) then 0
    else
      var k := 1 + LetterRun(isLetter, s[1..]);
      assert forall j :: 1 <= j < k ==> s[..k][j] == s[1..][..k - 1][j - 1];
      k
  }

  /** Length of the longest prefix of `s` made of non-letters: one match of `[\PL]+` when positive. */
  function DelimiterRun(isLetter: char -> bool, s: string): (k: nat)
    ensures k <= |s|
    ensures NoLetters(isLetter, s[..k])
    ensures k < |s| ==> isLetter(s[k])
  {
    if s == [] || isLetter(s[0]) then 0
    else
      var k := 1 + DelimiterRun(isLetter, s[1..]);
      assert forall j :: 1 <= j < k ==> s[..k][j] == s[1..][..k - 1][j - 1];
      k
  }

  /** The pieces between maximal runs of non-letters, all of them kept: a line that starts with a
      non-letter yields an empty first piece, one that ends with a non-letter an empty last piece. */
  function Pieces(isLetter: char -> bool, s: string): (ps: seq<string>)
    ensures |ps| >= 1
    decreases |s|
  {
    var k := LetterRun(isLetter, s);
    if k == |s| then [s]
    else
      var d := DelimiterRun(isLetter, s[k..]);
      [s[..k]] + Pieces(isLetter, s[k + d..])
  }

  /** A line that is not all letters splits into its leading run of letters and the pieces after
      the following run of non-letters. */
  lemma {:induction false} PiecesStep(isLetter: char -> bool, s: string, k: nat, d: nat)
    requires k == LetterRun(isLetter, s) < |s|
    requires d == DelimiterRun(isLetter, s[k..])
    ensures Pieces(isLetter, s) == [s[..k]] + Pieces(isLetter, s[k + d..])
  {
  }

  /** After a letter run and the non-letter run that ends it, the rest is empty or starts with a letter. */
  lemma {:induction false} AfterDelimiters(isLetter: char -> bool, s: string)
    requires LetterRun(isLetter, s) < |s|
    ensures var k := LetterRun(isLetter, s);
      var d := DelimiterRun(isLetter, s[k..]);
      && 0 < d
      && (|s[k + d..]| > 0 ==> isLetter(s[k + d..][0]))
  {
    var k := LetterRun(isLetter, s);
    var d := DelimiterRun(isLetter, s[k..]);
    assert s[k..][0] == s[k];
    if k + d < |s| {
      assert s[k + d..][0] == s[k..][d];
    }
  }

  /** Every piece is made of letters and only the first and last may be empty; there is a single
      piece, the line itself, exactly when the line is all letters. */
  lemma {:induction false} PiecesShape(isLetter: char -> bool, s: string)
    ensures var ps := Pieces(isLetter, s);
      && (forall i :: 0 <= i < |ps| ==> AllLetters(isLetter, ps[i]))
      && (forall i :: 0 < i < |ps| - 1 ==> |ps[i]| > 0)
      && (|ps| == 1 <==> AllLetters(isLetter, s))
      && (|ps| == 1 ==> ps[0] == s)
      && (|s| > 0 && isLetter(s[0]) ==> |ps[0]| > 0)
    decreases |s|
  {
    var k := LetterRun(isLetter, s);
    if k == |s| {
      assert s[..k] == s;
    } else {
      var d := DelimiterRun(isLetter, s[k..]);
      var t := s[k + d..];
      AfterDelimiters(isLetter, s);
      PiecesShape(isLetter, t);
      PiecesStep(isLetter, s, k, d);
      var ps, rest := Pieces(isLetter, s), Pieces(isLetter, t);
      assert |ps| == 1 + |rest|;
      assert !AllLetters(isLetter, s) by {
        assert !isLetter(s[k]);
      }
      forall i | 0 <= i < |ps|
        ensures AllLetters(isLetter, ps[i])
      {
        if i > 0 {
          assert ps[i] == rest[i - 1];
        }
      }
      forall i | 0 < i < |ps| - 1
        ensures |ps[i]| > 0
      {
        assert ps[i] == rest[i - 1];
      }
    }
  }

  /** `ws` with its trailing empty strings removed. */
  function DropTrailingEmpty(ws: seq<string>): (r: seq<string>)
    ensures |r| <= |ws|
    ensures r == ws[..|r|]
    ensures |r| > 0 ==> |r[|r| - 1]| > 0
    ensures forall i :: |r| <= i < |ws| ==> ws[i] == ""
  {
    if ws == [] then []
    else if ws[|ws| - 1] == "" then DropTrailingEmpty(ws[..|ws| - 1])
    else ws
  }

  /** Java's `String.split` with a limit of zero: the line itself when the pattern never matches,
      otherwise the pieces with trailing empty strings removed. */
  function Split(isLetter: char -> bool, line: string): (ws: seq<string>)
    ensures forall i :: 0 <= i < |ws| ==> AllLetters(isLetter, ws[i])
    ensures forall i :: 0 < i < |ws| ==> |ws[i]| > 0
    ensures AllLetters(isLetter, line) ==> ws == [line]
    ensures !AllLetters(isLetter, line) && |ws| > 0 ==> |ws[|ws| - 1]| > 0
  {
    PiecesShape(isLetter, line);
    var ps := Pieces(isLetter, line);
    if |ps| == 1 then ps else DropTrailingEmpty(ps)
  }

  /** `[cur]` when the run being collected is non-empty, otherwise nothing. */
  function Flush(cur: string): seq<string> {
    if cur == [] then [] else [cur]
  }

  /** Independent reference for the words: walk the line one character at a time, collecting the
      current run of letters in `cur` and emitting it when a non-letter or the end is reached. */
  function RunsFrom(isLetter: char -> bool, s: string, cur: string): seq<string> {
    if s == [] then Flush(cur)
    else if isLetter(s[0]) then RunsFrom(isLetter, s[1..], cur + [s[0]])
    else Flush(cur) + RunsFrom(isLetter, s[1..], [])
  }

  /** The maximal runs of letters of `s`, in order. */
  function Runs(isLetter: char -> bool, s: string): seq<string> {
    RunsFrom(isLetter, s, [])
  }

  /** The empty first word Java keeps when the line starts with a delimiter and has a later word. */
  function LeadingEmpty(isLetter: char -> bool, s: string): seq<string> {
    if |s| > 0 && !isLetter(s[0]) && Runs(isLetter, s) != [] then [""] else []
  }

  lemma {:induction false} RunsLetters(isLetter: char -> bool, s: string, cur: string, k: nat)
    requires k <= |s|
    requires AllLetters(isLetter, s[..k])
    ensures RunsFrom(isLetter, s, cur) == RunsFrom(isLetter, s[k..], cur + s[..k])
    decreases k
  {
    if k == 0 {
      assert cur + s[..0] == cur;
    } else {
      assert isLetter(s[..k][0]);
      assert s[1..][..k - 1] == s[..k][1..];
      RunsLetters(isLetter, s[1..], cur + [s[0]], k - 1);
      assert s[1..][k - 1..] == s[k..];
      assert cur + [s[0]] + s[1..][..k - 1] == cur + s[..k];
    }
  }

  lemma {:induction false} RunsDelimiters(isLetter: char -> bool, s: string, cur: string, d: nat)
    requires 0 < d <= |s|
    requires NoLetters(isLetter, s[..d])
    ensures RunsFrom(isLetter, s, cur) == Flush(cur) + RunsFrom(isLetter, s[d..], [])
    decreases d
  {
    assert !isLetter(s[..d][0]);
    if d > 1 {
      assert s[1..][..d - 1] == s[..d][1..];
      RunsDelimiters(isLetter, s[1..], [], d - 1);
      assert s[1..][d - 1..] == s[d..];
      assert Flush([]) + RunsFrom(isLetter, s[d..], []) == RunsFrom(isLetter, s[d..], []);
    }
  }

  /** The runs of a line are its leading run of letters, if any, followed by the runs after the
      next run of non-letters. */
  lemma {:induction false} RunsStep(isLetter: char -> bool, s: string, k: nat, d: nat)
    requires k == LetterRun(isLetter, s) < |s|
    requires d == DelimiterRun(isLetter, s[k..])
    ensures Runs(isLetter, s) == Flush(s[..k]) + Runs(isLetter, s[k + d..])
  {
    AfterDelimiters(isLetter, s);
    RunsLetters(isLetter, s, [], k);
    assert [] + s[..k] == s[..k];
    RunsDelimiters(isLetter, s[k..], s[..k], d);
    assert s[k..][d..] == s[k + d..];
  }

  lemma {:induction false} RunsAllLetters(isLetter: char -> bool, s: string)
    requires AllLetters(isLetter, s)
    ensures Runs(isLetter, s) == Flush(s)
  {
    assert s[..|s|] == s;
    RunsLetters(isLetter, s, [], |s|);
    assert [] + s == s;
    assert s[|s|..] == [];
  }

  lemma {:induction false} DropTrailingEmptyCons(x: string, ps: seq<string>)
    ensures DropTrailingEmpty([x] + ps) ==
      if DropTrailingEmpty(ps) == [] then DropTrailingEmpty([x]) else [x] + DropTrailingEmpty(ps)
    decreases |ps|
  {
    if ps == [] {
      assert [x] + ps == [x];
    } else {
      var init := ps[..|ps| - 1];
      assert ([x] + ps)[..|[x] + ps| - 1] == [x] + init;
      DropTrailingEmptyCons(x, init);
    }
  }

  lemma DropSingle(x: string)
    ensures DropTrailingEmpty([x]) == Flush(x)
  {
    if x == [] {
      assert [x][..0] == [];
    }
  }

  /** Putting a first piece in front of pieces that reduce to the runs `rs`: the piece survives when
      it is non-empty, and stays as an empty word when it is empty but a word follows. */
  lemma {:induction false} PrependFirst(first: string, ps: seq<string>, rs: seq<string>)
    requires DropTrailingEmpty(ps) == rs
    ensures DropTrailingEmpty([first] + ps) == (if first == [] && rs != [] then [""] else []) + (Flush(first) + rs)
  {
    DropTrailingEmptyCons(first, ps);
    DropSingle(first);
  }

  /** For a line that is not all letters, dropping the trailing empty pieces leaves the maximal
      letter runs, preceded by one empty word when the line starts with a delimiter. */
  lemma {:induction false} DropPiecesIsRuns(isLetter: char -> bool, s: string)
    requires !AllLetters(isLetter, s)
    ensures DropTrailingEmpty(Pieces(isLetter, s)) == LeadingEmpty(isLetter, s) + Runs(isLetter, s)
    decreases |s|, 0
  {
    var k := LetterRun(isLetter, s);
    var d := DelimiterRun(isLetter, s[k..]);
    var t := s[k + d..];
    var first := s[..k];
    AfterDelimiters(isLetter, s);
    PiecesStep(isLetter, s, k, d);
    RunsStep(isLetter, s, k, d);
    var ps, rs := Pieces(isLetter, t), Runs(isLetter, t);
    TailDropIsRuns(isLetter, t);
    PrependFirst(first, ps, rs);
    var lead: seq<string> := if first == [] && rs != [] then [""] else [];
    assert Pieces(isLetter, s) == [first] + ps;
    assert Runs(isLetter, s) == Flush(first) + rs;
    assert LeadingEmpty(isLetter, s) == lead by {
      assert first == [] <==> !isLetter(s[0]);
      if first == [] {
        assert Runs(isLetter, s) == rs;
      }
    }
  }

  /** What follows a run of delimiters starts with a letter; its pieces reduce to its runs. */
  lemma {:induction false} TailDropIsRuns(isLetter: char -> bool, t: string)
    requires t == [] || isLetter(t[0])
    ensures DropTrailingEmpty(Pieces(isLetter, t)) == Runs(isLetter, t)
    decreases |t|, 1
  {
    PiecesShape(isLetter, t);
    if AllLetters(isLetter, t) {
      RunsAllLetters(isLetter, t);
      DropSingle(t);
    } else {
      DropPiecesIsRuns(isLetter, t);
      assert LeadingEmpty(isLetter, t) == [];
      assert [] + Runs(isLetter, t) == Runs(isLetter, t);
    }
  }

  /** `Split` returns the maximal runs of letters in order, with an empty first word when the line
      starts with a delimiter and has a word after it; a line that is all letters (the empty line
      included) comes back whole. */
  lemma {:induction false} SplitIsRuns(isLetter: char -> bool, line: string)
    ensures Split(isLetter, line) ==
      if AllLetters(isLetter, line) then [line] else LeadingEmpty(isLetter, line) + Runs(isLetter, line)
  {
    PiecesShape(isLetter, line);
    if !AllLetters(isLetter, line) {
      DropPiecesIsRuns(isLetter, line);
    }
  }

  /** The number of words of at least `LONG_LENGTH` UTF-16 code units (the loop over `words`). */
  function CountLong(words: seq<string>): (n: nat)
    ensures n <= |words|
    ensures n == 0 <==> forall i :: 0 <= i < |words| ==> Utf16Length(words[i]) < LONG_LENGTH
  {
    if words == [] then 0
    else
      var n := (if Utf16Length(words[0]) >= LONG_LENGTH then 1 else 0) + CountLong(words[1..]);
      assert forall i :: 1 <= i < |words| ==> words[i] == words[1..][i - 1];
      n
  }

  lemma {:induction false} CountLongAppend(xs: seq<string>, ys: seq<string>)
    ensures CountLong(xs + ys) == CountLong(xs) + CountLong(ys)
    decreases |xs|
  {
    if xs == [] {
      assert xs + ys == ys;
    } else {
      assert (xs + ys)[1..] == xs[1..] + ys;
      CountLongAppend(xs[1..], ys);
    }
  }

  /** The long-word count of one line is the number of its maximal letter runs that are long. */
  function LineCount(isLetter: char -> bool, line: string): (n: nat)
    ensures n == CountLong(Runs(isLetter, line))
  {
    SplitIsRuns(isLetter, line);
    if AllLetters(isLetter, line) then
      RunsAllLetters(isLetter, line);
      CountLong(Split(isLetter, line))
    else
      CountLongAppend(LeadingEmpty(isLetter, line), Runs(isLetter, line));
      CountLong(Split(isLetter, line))
  }

  /** Independent single-pass reference: walking the line left to right with the length `run`, in
      UTF-16 code units, of the current run of letters, count the moments a run reaches
      `LONG_LENGTH`. Every maximal run of letters of length at least `LONG_LENGTH` does so exactly once. */
  function ScanCount(isLetter: char -> bool, s: string, run: nat): nat {
    if s == [] then 0
    else if isLetter(s[0]) then
      var next := run + Units(s[0]);
      (if run < LONG_LENGTH <= next then 1 else 0) + ScanCount(isLetter, s[1..], next)
    else ScanCount(isLetter, s[1..], 0)
  }

  /** Removing empty strings at the end never changes the count: empty pieces are never long. */
  lemma {:induction false} DropTrailingEmptyCount(ws: seq<string>)
    ensures CountLong(DropTrailingEmpty(ws)) == CountLong(ws)
    decreases |ws|
  {
    if ws != [] && ws[|ws| - 1] == "" {
      var init := ws[..|ws| - 1];
      assert ws == init + [""];
      CountLongAppend(init, [""]);
      DropTrailingEmptyCount(init);
    }
  }

  /** A block of `k` letters adds one to the count exactly when it carries the run across `LONG_LENGTH`. */
  lemma {:induction false} ScanLetters(isLetter: char -> bool, s: string, run: nat, k: nat)
    requires k <= |s|
    requires AllLetters(isLetter, s[..k])
    ensures var w := Utf16Length(s[..k]);
      ScanCount(isLetter, s, run) == (if run < LONG_LENGTH <= run + w then 1 else 0) + ScanCount(isLetter, s[k..], run + w)
    decreases k
  {
    if k == 0 {
      assert s[..0] == [];
    } else {
      assert isLetter(s[..k][0]);
      assert s[1..][..k - 1] == s[..k][1..];
      ScanLetters(isLetter, s[1..], run + Units(s[0]), k - 1);
      assert s[1..][k - 1..] == s[k..];
    }
  }

  /** A block of `d >= 1` non-letters ends the current run, whatever its length. */
  lemma {:induction false} ScanDelimiters(isLetter: char -> bool, s: string, run: nat, d: nat)
    requires 0 < d <= |s|
    requires NoLetters(isLetter, s[..d])
    ensures ScanCount(isLetter, s, run) == ScanCount(isLetter, s[d..], 0)
    decreases d
  {
    assert !isLetter(s[..d][0]);
    if d > 1 {
      assert s[1..][..d - 1] == s[..d][1..];
      ScanDelimiters(isLetter, s[1..], 0, d - 1);
      assert s[1..][d - 1..] == s[d..];
    }
  }

  lemma {:induction false} PiecesCountIsScan(isLetter: char -> bool, s: string)
    ensures CountLong(Pieces(isLetter, s)) == ScanCount(isLetter, s, 0)
    decreases |s|
  {
    var k := LetterRun(isLetter, s);
    ScanLetters(isLetter, s, 0, k);
    if k < |s| {
      var d := DelimiterRun(isLetter, s[k..]);
      AfterDelimiters(isLetter, s);
      ScanDelimiters(isLetter, s[k..], Utf16Length(s[..k]), d);
      assert s[k..][d..] == s[k + d..];
      PiecesCountIsScan(isLetter, s[k + d..]);
      PiecesStep(isLetter, s, k, d);
      CountLongAppend([s[..k]], Pieces(isLetter, s[k + d..]));
    } else {
      assert s[k..] == [];
      assert s[..k] == s;
    }
  }

  /** The count of a line equals the number of its maximal runs of letters at least `LONG_LENGTH`
      code units long, as counted by the single-pass reference. */
  lemma {:induction false} LineCountIsScan(isLetter: char -> bool, line: string)
    ensures LineCount(isLetter, line) == ScanCount(isLetter, line, 0)
  {
    PiecesCountIsScan(isLetter, line);
    DropTrailingEmptyCount(Pieces(isLetter, line));
  }

  lemma {:induction false} ScanBound(isLetter: char -> bool, s: string, run: nat)
    ensures LONG_LENGTH * ScanCount(isLetter, s, run) <= Utf16Length(s) + (if run < LONG_LENGTH then run else 0)
    decreases |s|
  {
    if s != [] {
      if isLetter(s[0]) {
        ScanBound(isLetter, s[1..], run + Units(s[0]));
      } else {
        ScanBound(isLetter, s[1..], 0);
      }
    }
  }

  /** Counted words are disjoint pieces of the line, so a line of `n` UTF-16 code units holds at
      most `n / LONG_LENGTH` long words. */
  lemma {:induction false} LineCountBound(isLetter: char -> bool, line: string)
    ensures LONG_LENGTH * LineCount(isLetter, line) <= Utf16Length(line)
  {
    LineCountIsScan(isLetter, line);
    ScanBound(isLetter, line, 0);
  }

  lemma {:induction false} ScanNoLetters(isLetter: char -> bool, s: string, run: nat)
    requires NoLetters(isLetter, s)
    ensures ScanCount(isLetter, s, run) == 0
    decreases |s|
  {
    if s != [] {
      assert !isLetter(s[0]);
      assert NoLetters(isLetter, s[1..]) by {
        assert forall j :: 0 <= j < |s| - 1 ==> s[1..][j] == s[j + 1];
      }
      ScanNoLetters(isLetter, s[1..], 0);
    }
  }

  /** A line without letters (the empty line included) counts zero: its pieces are all empty. */
  lemma {:induction false} NoLettersCountsZero(isLetter: char -> bool, line: string)
    requires NoLetters(isLetter, line)
    ensures LineCount(isLetter, line) == 0
  {
    LineCountIsScan(isLetter, line);
    ScanNoLetters(isLetter, line, 0);
  }

  /** A word made only of letters counts once exactly when its Java length reaches `LONG_LENGTH`. */
  lemma {:induction false} AllLettersLineCount(isLetter: char -> bool, line: string)
    requires AllLetters(isLetter, line)
    ensures LineCount(isLetter, line) == if Utf16Length(line) >= LONG_LENGTH then 1 else 0
  {
    LineCountIsScan(isLetter, line);
    ScanLetters(isLetter, line, 0, |line|);
    assert line[..|line|] == line;
    assert line[|line|..] == [];
  }

  /** Six letters from outside the Basic Multilingual Plane (U+1D400) form one long word: Java
      measures them as twelve code units although the line has six characters. */
  lemma {:induction false} SupplementaryLettersCount(isLetter: char -> bool)
    requires isLetter('\U{1D400}')
    ensures |seq(6, _ => '\U{1D400}')| == 6
    ensures LineCount(isLetter, seq(6, _ => '\U{1D400}')) == 1
  {
    var line := seq(6, _ => '\U{1D400}');
    assert line == [line[0]] + line[1..];
    assert line[1..] == [line[0]] + line[2..];
    assert line[2..] == [line[0]] + line[3..];
    assert line[3..] == [line[0]] + line[4..];
    assert line[4..] == [line[0]] + line[5..];
    assert line[5..] == [line[0]];
    assert Units(line[0]) == 2;
    assert Utf16Length(line[5..]) == 2;
    assert Utf16Length(line[4..]) == 4;
    assert Utf16Length(line[3..]) == 6;
    assert Utf16Length(line[2..]) == 8;
    assert Utf16Length(line[1..]) == 10;
    assert Utf16Length(line) == 12;
    AllLettersLineCount(isLetter, line);
  }

  /** Java length of all the lines of a source (line terminators not counted). */
  function TotalLength(lines: seq<string>): nat {
    if lines == [] then 0 else Utf16Length(lines[0]) + TotalLength(lines[1..])
  }

  /** The lines of a source laid end to end, without line terminators. */
  function Joined(lines: seq<string>): string {
    if lines == [] then [] else lines[0] + Joined(lines[1..])
  }

  /** `TotalLength` is the Java length of the source's text with its line terminators removed. */
  lemma {:induction false} TotalLengthIsJoinedLength(lines: seq<string>)
    ensures TotalLength(lines) == Utf16Length(Joined(lines))
    decreases |lines|
  {
    if lines != [] {
      TotalLengthIsJoinedLength(lines[1..]);
      Utf16LengthAppend(lines[0], Joined(lines[1..]));
    }
  }

  /** Total length is additive over the lines of a source. */
  lemma {:induction false} TotalLengthAppend(xs: seq<string>, ys: seq<string>)
    ensures TotalLength(xs + ys) == TotalLength(xs) + TotalLength(ys)
    decreases |xs|
  {
    if xs == [] {
      assert xs + ys == ys;
    } else {
      assert (xs + ys)[1..] == xs[1..] + ys;
      TotalLengthAppend(xs[1..], ys);
    }
  }

  /** The count of a source: the sum of its lines' counts (`mapToInt(...).sum()`). A source of `n`
      code units holds at most `n / LONG_LENGTH` long words. */
  function LinesCount(isLetter: char -> bool, lines: seq<string>): (n: nat)
    ensures LONG_LENGTH * n <= TotalLength(lines)
  {
    if lines == [] then 0
    else
      LineCountBound(isLetter, lines[0]);
      LineCount(isLetter, lines[0]) + LinesCount(isLetter, lines[1..])
  }

  /** Counting is additive over the lines of a source. */
  lemma {:induction false} LinesCountAppend(isLetter: char -> bool, xs: seq<string>, ys: seq<string>)
    ensures LinesCount(isLetter, xs + ys) == LinesCount(isLetter, xs) + LinesCount(isLetter, ys)
    decreases |xs|
  {
    if xs == [] {
      assert xs + ys == ys;
    } else {
      assert (xs + ys)[1..] == xs[1..] + ys;
      LinesCountAppend(isLetter, xs[1..], ys);
    }
  }

  /** A source of one line counts that line: with `LinesCountAppend` this fixes the count of every
      source as the sum of its lines' counts. */
  lemma LinesCountSingle(isLetter: char -> bool, line: string)
    ensures LinesCount(isLetter, [line]) == LineCount(isLetter, line)
  {
    assert [line][1..] == [];
  }
}
