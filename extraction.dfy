/**
 * Turning generated text into candidate response lines, as the weekly
 * regeneration does: `re.split(r'\n|\d+\.', text)`, keep each piece that is
 * not blank and longer than five characters, and clean it with
 * `line.strip().lstrip('*-').strip()`.
 */
module Extraction {
  import opened Text

  /** The end of the run of ASCII digits that starts at `i`. */
  function DigitRunEnd(s: string, i: nat): (j: nat)
    requires i <= |s|
    ensures i <= j <= |s|
    ensures forall k {:trigger IsDigit(s[k])} :: i <= k < j ==> IsDigit(s[k])
    ensures j < |s| ==> !IsDigit(s[j])
    decreases |s| - i
  {
    if i < |s| && IsDigit(s[i]) then DigitRunEnd(s, i + 1) else i
  }

  /** The length of the match of `\n|\d+\.` at `i`, or 0 when the pattern does
      not match there. `\d+` is greedy and can only be followed by `.` at the
      end of the whole digit run, so no shorter run needs trying. */
  function SeparatorAt(s: string, i: nat): (m: nat)
    requires i < |s|
    ensures i + m <= |s|
    ensures m == 0 <==> s[i] != '\n' && !(DigitRunEnd(s, i) > i && DigitRunEnd(s, i) < |s| && s[DigitRunEnd(s, i)] == '.')
    ensures s[i] == '\n' ==> m == 1
    ensures s[i] != '\n' && m > 0 ==> m == DigitRunEnd(s, i) - i + 1 && s[DigitRunEnd(s, i)] == '.'
  {
    if s[i] == '\n' then 1
    else
      var j := DigitRunEnd(s, i);
      if i < j < |s| && s[j] == '.' then j - i + 1 else 0
  }

  /** `re.split` scanning from `i`, the current piece having started at `start`:
      a match closes the piece and the scan resumes after it. */
  function SplitFrom(s: string, start: nat, i: nat): (r: seq<string>)
    requires start <= i <= |s|
    decreases |s| - i
  {
    if i == |s| then [s[start..]]
    else
      var m := SeparatorAt(s, i);
      if m > 0 then [s[start..i]] + SplitFrom(s, i + m, i + m)
      else SplitFrom(s, start, i + 1)
  }

  /** `re.split(r'\n|\d+\.', s)`. */
  function Split(s: string): (r: seq<string>) {
    SplitFrom(s, 0, 0)
  }

  /** No piece of a split contains a newline, and there is always at least one piece. */
  lemma {:induction false} SplitFromPieces(s: string, start: nat, i: nat)
    requires start <= i <= |s|
    requires forall k :: start <= k < i ==> s[k] != '\n'
    ensures |SplitFrom(s, start, i)| > 0
    ensures forall p :: p in SplitFrom(s, start, i) ==> '\n' !in p
    decreases |s| - i
  {
    if i == |s| {
      assert forall k :: 0 <= k < |s[start..]| ==> s[start..][k] == s[start + k];
    } else {
      var m := SeparatorAt(s, i);
      if m > 0 {
        assert forall k :: 0 <= k < |s[start..i]| ==> s[start..i][k] == s[start + k];
        SplitFromPieces(s, i + m, i + m);
      } else {
        SplitFromPieces(s, start, i + 1);
      }
    }
  }

  lemma SplitPieces(s: string)
    ensures |Split(s)| > 0
    ensures forall p :: p in Split(s) ==> '\n' !in p
  {
    SplitFromPieces(s, 0, 0);
  }

  /** The stretch `s[from..to]` of the text that one piece of a split came from. */
  datatype Stretch = Stretch(from: nat, to: nat)

  /** The stretch behind each piece of `SplitFrom(s, start, i)`. */
  function CutsFrom(s: string, start: nat, i: nat): (r: seq<Stretch>)
    requires start <= i <= |s|
    ensures |r| > 0 && r[0].from == start && r[|r| - 1].to == |s|
    decreases |s| - i
  {
    if i == |s| then [Stretch(start, |s|)]
    else
      var m := SeparatorAt(s, i);
      if m > 0 then [Stretch(start, i)] + CutsFrom(s, i + m, i + m)
      else CutsFrom(s, start, i + 1)
  }

  /** Each piece is the slice of `s` that its stretch names. */
  ghost predicate SlicesOf(s: string, cuts: seq<Stretch>, pieces: seq<string>) {
    |cuts| == |pieces| &&
    forall k :: 0 <= k < |cuts| ==> cuts[k].from <= cuts[k].to <= |s| && pieces[k] == s[cuts[k].from..cuts[k].to]
  }

  /** No separator starts inside a stretch. */
  ghost predicate SeparatorFree(s: string, cuts: seq<Stretch>) {
    forall k, x :: 0 <= k < |cuts| && cuts[k].from <= x < cuts[k].to && x < |s| ==> SeparatorAt(s, x) == 0
  }

  /** A separator starts where each stretch but the last ends, and the next
      stretch starts right after that separator. */
  ghost predicate SeparatorLinked(s: string, cuts: seq<Stretch>) {
    forall k :: 0 <= k < |cuts| - 1 ==>
      cuts[k].to < |s| && SeparatorAt(s, cuts[k].to) > 0 && cuts[k + 1].from == cuts[k].to + SeparatorAt(s, cuts[k].to)
  }

  lemma PrependSlice(s: string, start: nat, i: nat, rest: seq<Stretch>, tail: seq<string>)
    requires start <= i <= |s| && SlicesOf(s, rest, tail)
    ensures SlicesOf(s, [Stretch(start, i)] + rest, [s[start..i]] + tail)
  {
    var cuts := [Stretch(start, i)] + rest;
    var pieces := [s[start..i]] + tail;
    forall k | 0 < k < |cuts|
      ensures cuts[k].from <= cuts[k].to <= |s| && pieces[k] == s[cuts[k].from..cuts[k].to]
    {
      assert cuts[k] == rest[k - 1] && pieces[k] == tail[k - 1];
    }
  }

  lemma PrependFree(s: string, start: nat, i: nat, rest: seq<Stretch>)
    requires forall x :: start <= x < i && x < |s| ==> SeparatorAt(s, x) == 0
    requires SeparatorFree(s, rest)
    ensures SeparatorFree(s, [Stretch(start, i)] + rest)
  {
    var cuts := [Stretch(start, i)] + rest;
    forall k, x | 0 < k < |cuts| && cuts[k].from <= x < cuts[k].to && x < |s|
      ensures SeparatorAt(s, x) == 0
    {
      assert cuts[k] == rest[k - 1];
    }
  }

  lemma PrependLinked(s: string, start: nat, i: nat, rest: seq<Stretch>)
    requires i < |s| && SeparatorAt(s, i) > 0
    requires rest != [] && rest[0].from == i + SeparatorAt(s, i) && SeparatorLinked(s, rest)
    ensures SeparatorLinked(s, [Stretch(start, i)] + rest)
  {
    var cuts := [Stretch(start, i)] + rest;
    forall k | 0 < k < |cuts| - 1
      ensures cuts[k].to < |s| && SeparatorAt(s, cuts[k].to) > 0 && cuts[k + 1].from == cuts[k].to + SeparatorAt(s, cuts[k].to)
    {
      assert cuts[k] == rest[k - 1] && cuts[k + 1] == rest[k];
    }
  }

  /** One step of the scan past a separator, for stretches and pieces alike. */
  lemma CutStep(s: string, start: nat, i: nat)
    requires start <= i < |s| && SeparatorAt(s, i) > 0
    ensures CutsFrom(s, start, i) == [Stretch(start, i)] + CutsFrom(s, i + SeparatorAt(s, i), i + SeparatorAt(s, i))
    ensures SplitFrom(s, start, i) == [s[start..i]] + SplitFrom(s, i + SeparatorAt(s, i), i + SeparatorAt(s, i))
  {
  }

  /** One step of the scan where no separator starts. */
  lemma CutSkip(s: string, start: nat, i: nat)
    requires start <= i < |s| && SeparatorAt(s, i) == 0
    ensures CutsFrom(s, start, i) == CutsFrom(s, start, i + 1)
    ensures SplitFrom(s, start, i) == SplitFrom(s, start, i + 1)
  {
  }

  /** The scan at its end leaves one last piece, `s[start..]`. */
  lemma CutEnd(s: string, start: nat)
    requires start <= |s|
    ensures CutsFrom(s, start, |s|) == [Stretch(start, |s|)]
    ensures SplitFrom(s, start, |s|) == [s[start..|s|]]
  {
    assert s[start..] == s[start..|s|];
  }

  lemma SliceStep(s: string, start: nat, i: nat)
    requires start <= i < |s| && SeparatorAt(s, i) > 0
    requires SlicesOf(s, CutsFrom(s, i + SeparatorAt(s, i), i + SeparatorAt(s, i)), SplitFrom(s, i + SeparatorAt(s, i), i + SeparatorAt(s, i)))
    ensures SlicesOf(s, CutsFrom(s, start, i), SplitFrom(s, start, i))
  {
    var j := i + SeparatorAt(s, i);
    CutStep(s, start, i);
    PrependSlice(s, start, i, CutsFrom(s, j, j), SplitFrom(s, j, j));
  }

  lemma SliceSkip(s: string, start: nat, i: nat)
    requires start <= i < |s| && SeparatorAt(s, i) == 0
    requires SlicesOf(s, CutsFrom(s, start, i + 1), SplitFrom(s, start, i + 1))
    ensures SlicesOf(s, CutsFrom(s, start, i), SplitFrom(s, start, i))
  {
    CutSkip(s, start, i);
  }

  lemma FreeStep(s: string, start: nat, i: nat)
    requires start <= i < |s| && SeparatorAt(s, i) > 0
    requires forall x :: start <= x < i ==> SeparatorAt(s, x) == 0
    requires SeparatorFree(s, CutsFrom(s, i + SeparatorAt(s, i), i + SeparatorAt(s, i)))
    ensures SeparatorFree(s, CutsFrom(s, start, i))
  {
    CutStep(s, start, i);
    PrependFree(s, start, i, CutsFrom(s, i + SeparatorAt(s, i), i + SeparatorAt(s, i)));
  }

  lemma FreeSkip(s: string, start: nat, i: nat)
    requires start <= i < |s| && SeparatorAt(s, i) == 0
    requires SeparatorFree(s, CutsFrom(s, start, i + 1))
    ensures SeparatorFree(s, CutsFrom(s, start, i))
  {
    CutSkip(s, start, i);
  }

  lemma LinkStep(s: string, start: nat, i: nat)
    requires start <= i < |s| && SeparatorAt(s, i) > 0
    requires SeparatorLinked(s, CutsFrom(s, i + SeparatorAt(s, i), i + SeparatorAt(s, i)))
    ensures SeparatorLinked(s, CutsFrom(s, start, i))
  {
    CutStep(s, start, i);
    PrependLinked(s, start, i, CutsFrom(s, i + SeparatorAt(s, i), i + SeparatorAt(s, i)));
  }

  lemma LinkSkip(s: string, start: nat, i: nat)
    requires start <= i < |s| && SeparatorAt(s, i) == 0
    requires SeparatorLinked(s, CutsFrom(s, start, i + 1))
    ensures SeparatorLinked(s, CutsFrom(s, start, i))
  {
    CutSkip(s, start, i);
  }

  lemma {:induction false} CutsFromSlices(s: string, start: nat, i: nat)
    requires start <= i <= |s|
    ensures SlicesOf(s, CutsFrom(s, start, i), SplitFrom(s, start, i))
    decreases |s| - i
  {
    if i < |s| {
      var m := SeparatorAt(s, i);
      if m > 0 {
        CutsFromSlices(s, i + m, i + m);
        SliceStep(s, start, i);
      } else {
        CutsFromSlices(s, start, i + 1);
        SliceSkip(s, start, i);
      }
    } else {
      CutEnd(s, start);
    }
  }

  lemma {:induction false} CutsFromFree(s: string, start: nat, i: nat)
    requires start <= i <= |s|
    requires forall x :: start <= x < i ==> SeparatorAt(s, x) == 0
    ensures SeparatorFree(s, CutsFrom(s, start, i))
    decreases |s| - i
  {
    if i < |s| {
      var m := SeparatorAt(s, i);
      if m > 0 {
        CutsFromFree(s, i + m, i + m);
        FreeStep(s, start, i);
      } else {
        CutsFromFree(s, start, i + 1);
        FreeSkip(s, start, i);
      }
    } else {
      CutEnd(s, start);
    }
  }

  lemma {:induction false} CutsFromLinked(s: string, start: nat, i: nat)
    requires start <= i <= |s|
    ensures SeparatorLinked(s, CutsFrom(s, start, i))
    decreases |s| - i
  {
    if i < |s| {
      var m := SeparatorAt(s, i);
      if m > 0 {
        CutsFromLinked(s, i + m, i + m);
        LinkStep(s, start, i);
      } else {
        CutsFromLinked(s, start, i + 1);
        LinkSkip(s, start, i);
      }
    } else {
      CutEnd(s, start);
    }
  }

  /** What `re.split` means: each piece is the slice of `s` between the
      `from` and `to` of its stretch, and no separator starts inside that
      stretch; a separator starts at every `to` but the last, and the next
      stretch starts right after it; the first stretch starts at 0 and the
      last ends at `|s|`, so pieces and separators tile the whole text. */
  lemma SplitMeaning(s: string) returns (cuts: seq<Stretch>)
    ensures |cuts| == |Split(s)| > 0
    ensures cuts[0].from == 0 && cuts[|cuts| - 1].to == |s|
    ensures forall k :: 0 <= k < |cuts| ==>
      cuts[k].from <= cuts[k].to <= |s| && Split(s)[k] == s[cuts[k].from..cuts[k].to]
    ensures forall k, x :: 0 <= k < |cuts| && cuts[k].from <= x < cuts[k].to ==> SeparatorAt(s, x) == 0
    ensures forall k :: 0 <= k < |cuts| - 1 ==>
      cuts[k].to < |s| && SeparatorAt(s, cuts[k].to) > 0 && cuts[k + 1].from == cuts[k].to + SeparatorAt(s, cuts[k].to)
  {
    cuts := CutsFrom(s, 0, 0);
    CutsFromSlices(s, 0, 0);
    CutsFromFree(s, 0, 0);
    CutsFromLinked(s, 0, 0);
  }

  /** `re.split(r'\n|\d+\.', "a\n12.b")` is `['a', '', 'b']`: the whole digit
      run and its dot form one separator, and two adjacent separators leave an
      empty piece between them. */
  lemma SplitExample()
    ensures Split("a\n12.b") == ["a", "", "b"]
  {
    var s := "a\n12.b";
    assert SeparatorAt(s, 0) == 0;
    assert SeparatorAt(s, 1) == 1;
    assert DigitRunEnd(s, 2) == 4;
    assert SeparatorAt(s, 2) == 3;
    assert SeparatorAt(s, 5) == 0;
    assert s[5..] == "b" && s[2..2] == "" && s[0..1] == "a";
    assert SplitFrom(s, 5, 6) == ["b"];
    assert SplitFrom(s, 5, 5) == ["b"];
    assert SplitFrom(s, 2, 2) == ["", "b"];
    assert SplitFrom(s, 0, 1) == ["a", "", "b"];
  }

  /** A Python list comprehension `[f(x) for x in xs if keep(x)]`. */
  function Comprehension<T, U>(xs: seq<T>, keep: T -> bool, f: T -> U): (r: seq<U>)
    ensures |r| <= |xs|
  {
    if xs == [] then []
    else
      var rest := Comprehension(xs[1..], keep, f);
      if keep(xs[0]) then [f(xs[0])] + rest else rest
  }

  /** Every element of a comprehension is `f` of a kept element; the index
      returned is that element's position. */
  lemma {:induction false} ComprehensionSource<T, U>(xs: seq<T>, keep: T -> bool, f: T -> U, k: nat)
      returns (j: nat)
    requires k < |Comprehension(xs, keep, f)|
    ensures j < |xs| && keep(xs[j]) && Comprehension(xs, keep, f)[k] == f(xs[j])
    decreases |xs|
  {
    if keep(xs[0]) && k == 0 {
      j := 0;
    } else {
      var j' := ComprehensionSource(xs[1..], keep, f, if keep(xs[0]) then k - 1 else k);
      j := j' + 1;
    }
  }

  /** Every kept element contributes to the comprehension. */
  lemma {:induction false} ComprehensionComplete<T, U>(xs: seq<T>, keep: T -> bool, f: T -> U, j: nat)
    requires j < |xs| && keep(xs[j])
    ensures f(xs[j]) in Comprehension(xs, keep, f)
    decreases |xs|
  {
    if j > 0 {
      ComprehensionComplete(xs[1..], keep, f, j - 1);
    }
  }

  /** The positions, from `i` on, of the elements of `xs` that `keep` accepts. */
  function KeptFrom<T>(xs: seq<T>, keep: T -> bool, i: nat): (r: seq<nat>)
    requires i <= |xs|
    ensures forall k :: 0 <= k < |r| ==> i <= r[k] < |xs| && keep(xs[r[k]])
    decreases |xs| - i
  {
    if i == |xs| then [] else (if keep(xs[i]) then [i] else []) + KeptFrom(xs, keep, i + 1)
  }

  /** Strictly increasing positions. */
  predicate Increasing(r: seq<nat>) {
    forall k, l :: 0 <= k < l < |r| ==> r[k] < r[l]
  }

  lemma {:induction false} KeptFromSorted<T>(xs: seq<T>, keep: T -> bool, i: nat)
    requires i <= |xs|
    ensures Increasing(KeptFrom(xs, keep, i))
    decreases |xs| - i
  {
    if i < |xs| {
      KeptFromSorted(xs, keep, i + 1);
      var r := KeptFrom(xs, keep, i + 1);
      if keep(xs[i]) {
        var s := KeptFrom(xs, keep, i);
        assert s == [i] + r;
        assert forall k :: 0 < k < |s| ==> s[k] == r[k - 1] && i < s[k];
      } else {
        assert KeptFrom(xs, keep, i) == r;
      }
    }
  }

  lemma {:induction false} KeptFromComplete<T>(xs: seq<T>, keep: T -> bool, i: nat)
    requires i <= |xs|
    ensures forall j :: i <= j < |xs| && keep(xs[j]) ==> j in KeptFrom(xs, keep, i)
    decreases |xs| - i
  {
    if i < |xs| {
      KeptFromComplete(xs, keep, i + 1);
    }
  }

  lemma {:induction false} ComprehensionFrom<T, U>(xs: seq<T>, keep: T -> bool, f: T -> U, i: nat)
    requires i <= |xs|
    ensures var r := KeptFrom(xs, keep, i);
      |Comprehension(xs[i..], keep, f)| == |r| &&
      forall k :: 0 <= k < |r| ==> Comprehension(xs[i..], keep, f)[k] == f(xs[r[k]])
    decreases |xs| - i
  {
    if i < |xs| {
      ComprehensionFrom(xs, keep, f, i + 1);
      assert xs[i..][0] == xs[i] && xs[i..][1..] == xs[i + 1..];
      var tail := Comprehension(xs[i + 1..], keep, f);
      if keep(xs[i]) {
        assert Comprehension(xs[i..], keep, f) == [f(xs[i])] + tail;
      } else {
        assert Comprehension(xs[i..], keep, f) == tail;
      }
    }
  }

  /** The comprehension is `f` over the kept elements, in order and with
      repetitions: `idx` lists the positions of the kept elements, strictly
      increasing, and every kept position is listed. */
  lemma ComprehensionIndices<T, U>(xs: seq<T>, keep: T -> bool, f: T -> U) returns (idx: seq<nat>)
    ensures |idx| == |Comprehension(xs, keep, f)|
    ensures forall k :: 0 <= k < |idx| ==>
      idx[k] < |xs| && keep(xs[idx[k]]) && Comprehension(xs, keep, f)[k] == f(xs[idx[k]])
    ensures forall k, l :: 0 <= k < l < |idx| ==> idx[k] < idx[l]
    ensures forall j :: 0 <= j < |xs| && keep(xs[j]) ==> j in idx
  {
    idx := KeptFrom(xs, keep, 0);
    KeptFromSorted(xs, keep, 0);
    KeptFromComplete(xs, keep, 0);
    ComprehensionFrom(xs, keep, f, 0);
    assert xs[0..] == xs;
  }

  /** `if line.strip() and len(line) > 5`: the length test is on the raw piece. */
  predicate Kept(piece: string) {
    Strip(piece) != [] && |piece| > 5
  }

  /** `line.strip().lstrip('*-').strip()`. */
  function Clean(piece: string): (r: string)
    ensures r == [] || (!IsSpace(r[0]) && !IsSpace(r[|r| - 1]))
  {
    Strip(TrimStartChars(Strip(piece), {'*', '-'}))
  }

  lemma NotInSlice<T>(s: seq<T>, a: nat, b: nat, x: T)
    requires a <= b <= |s| && x !in s
    ensures x !in s[a..b]
  {
    assert forall c :: 0 <= c < b - a ==> s[a..b][c] == s[a + c];
  }

  /** Cleaning only removes characters from the ends of a piece, so it cannot
      introduce a newline. */
  lemma CleanAddsNoNewline(piece: string)
    requires '\n' !in piece
    ensures '\n' !in Clean(piece)
  {
    var a1, b1 := StripIsSlice(piece);
    NotInSlice(piece, a1, b1, '\n');
    var t := Strip(piece);
    var u := TrimStartChars(t, {'*', '-'});
    NotInSlice(t, |t| - |u|, |t|, '\n');
    var a3, b3 := StripIsSlice(u);
    NotInSlice(u, a3, b3, '\n');
  }

  /** The candidate lines of a generated text. */
  function ExtractLines(text: string): (r: seq<string>) {
    Comprehension(Split(text), Kept, Clean)
  }

  /** Every extracted line is the cleaned form of a piece of the split that is
      not blank and is longer than five characters; it has no surrounding
      whitespace and holds no newline. */
  lemma ExtractedLineShape(text: string, k: nat)
    requires k < |ExtractLines(text)|
    ensures var line := ExtractLines(text)[k];
      && (exists j :: 0 <= j < |Split(text)| && Kept(Split(text)[j]) && line == Clean(Split(text)[j]))
      && (line == [] || (!IsSpace(line[0]) && !IsSpace(line[|line| - 1])))
      && '\n' !in line
  {
    var j := ComprehensionSource(Split(text), Kept, Clean, k);
    SplitPieces(text);
    CleanAddsNoNewline(Split(text)[j]);
  }

  /** The extracted lines are the cleaned forms of the kept pieces of the
      split, in the order of the pieces and with repetitions: `idx` holds the
      position of each line's piece. */
  lemma ExtractLinesInOrder(text: string) returns (idx: seq<nat>)
    ensures |idx| == |ExtractLines(text)|
    ensures forall k :: 0 <= k < |idx| ==>
      idx[k] < |Split(text)| && Kept(Split(text)[idx[k]]) && ExtractLines(text)[k] == Clean(Split(text)[idx[k]])
    ensures forall k, l :: 0 <= k < l < |idx| ==> idx[k] < idx[l]
    ensures forall j :: 0 <= j < |Split(text)| && Kept(Split(text)[j]) ==> j in idx
  {
    idx := ComprehensionIndices(Split(text), Kept, Clean);
  }

  /** Every piece of the split that passes the filter yields a line. */
  lemma ExtractedLinesComplete(text: string, j: nat)
    requires j < |Split(text)| && Kept(Split(text)[j])
    ensures Clean(Split(text)[j]) in ExtractLines(text)
  {
    ComprehensionComplete(Split(text), Kept, Clean, j);
  }

  /** `lstrip` drops exactly the leading run of whitespace. */
  lemma TrimStartIs(s: string, k: nat)
    requires k <= |s| && (forall i :: 0 <= i < k ==> IsSpace(s[i])) && (k == |s| || !IsSpace(s[k]))
    ensures TrimStart(s) == s[k..]
  {
    var r := TrimStart(s);
    var d := |s| - |r|;
    assert d < |s| ==> r[0] == s[d];
  }

  lemma TrimStartExample()
    ensures TrimStart("  ***  ") == "***  "
  {
    var s := "  ***  ";
    assert s[0] == ' ' && s[1] == ' ' && s[2] == '*';
    TrimStartIs(s, 2);
    assert s[2..] == "***  ";
  }

  lemma TrimEndExample()
    ensures TrimEnd("***  ") == "***"
  {
    var s := "***  ";
    assert s[4] == ' ' && s[..4] == "*** ";
    assert "*** "[3] == ' ' && "*** "[..3] == "***";
    assert "***"[2] == '*';
  }

  lemma StripExample()
    ensures Strip("  ***  ") == "***"
  {
    TrimStartExample();
    TrimEndExample();
  }

  /** Because the length test is on the raw piece, a kept piece can clean down
      to fewer than six characters, even to the empty line. */
  lemma ShortCleanedLineIsKept()
    ensures Kept("  ***  ") && Clean("  ***  ") == ""
  {
    StripExample();
    assert "***"[1..] == "**";
    assert "**"[1..] == "*";
    assert "*"[1..] == "";
    assert TrimStartChars("***", {'*', '-'}) == "";
  }
}
