/** The case-preserving replacement the migration script applies to file
    contents and to file and folder names: every case-insensitive occurrence
    of a search string is replaced, left to right and without overlaps, by a
    replacement whose case follows the case of the text it replaces.

    A search string is treated as literal text (the script builds a regular
    expression from it, whose special characters are not modelled), and case
    is ASCII case. */
module CaseReplace {
  import opened Common
  import opened Ascii

  /** One search-and-replace pair of a migration method. */
  datatype Pair = Pair(search: string, replacement: string)

  /** A piece of the scanned input: a character copied through, or a matched
      occurrence of the search string. */
  datatype Piece = Kept(c: char) | Hit(text: string)

  /** Whether `s` starts with `search`, ignoring case. The regular-expression
      `i` flag compares characters after upper-casing them. */
  predicate MatchesPrefix(s: string, search: string)
  {
    |search| <= |s| && UpperStr(s[..|search|]) == UpperStr(search)
  }

  /** The empty pattern matches the empty string before every character and
      at the end: matches and copied characters alternate. */
  function EmptyScan(s: string): (pieces: seq<Piece>)
    ensures |pieces| == 2 * |s| + 1
    ensures forall k :: 0 <= k <= |s| ==> pieces[2 * k] == Hit([])
    ensures forall k :: 0 <= k < |s| ==> pieces[2 * k + 1] == Kept(s[k])
    ensures forall j :: 0 <= j < |pieces| && pieces[j].Hit? ==> pieces[j].text == []
  {
    if s == [] then [Hit([])]
    else
      var rest := EmptyScan(s[1..]);
      assert forall k :: 1 <= k <= |s| ==> ([Hit([]), Kept(s[0])] + rest)[2 * k] == rest[2 * (k - 1)];
      [Hit([]), Kept(s[0])] + rest
  }

  /** How a global regular-expression replace cuts the input: the leftmost
      match is taken, scanning resumes after it, and a position where no
      match starts is copied through. */
  function Scan(s: string, search: string): (pieces: seq<Piece>)
    ensures forall j :: 0 <= j < |pieces| && pieces[j].Hit? ==> |pieces[j].text| == |search|
    ensures |search| > 0 ==> |pieces| <= |s|
    ensures |search| > |s| ==> forall j :: 0 <= j < |pieces| ==> pieces[j].Kept?
    decreases |s|
  {
    if |search| == 0 then EmptyScan(s)
    else if |s| == 0 then []
    else if MatchesPrefix(s, search) then [Hit(s[..|search|])] + Scan(s[|search|..], search)
    else [Kept(s[0])] + Scan(s[1..], search)
  }

  /** The text a sequence of pieces covers. */
  function Text(pieces: seq<Piece>): string
  {
    if pieces == [] then []
    else (match pieces[0] case Kept(c) => [c] case Hit(t) => t) + Text(pieces[1..])
  }

  lemma {:induction false} TextAppend(a: seq<Piece>, b: seq<Piece>)
    ensures Text(a + b) == Text(a) + Text(b)
  {
    if a == [] {
      assert a + b == b;
    } else {
      assert (a + b)[1..] == a[1..] + b;
      TextAppend(a[1..], b);
    }
  }

  lemma TextCons(p: Piece, rest: seq<Piece>)
    ensures Text([p] + rest) == (match p case Kept(c) => [c] case Hit(t) => t) + Text(rest)
  {
    assert ([p] + rest)[1..] == rest;
  }

  lemma SplitAt(s: string, n: nat)
    requires n <= |s|
    ensures s[..n] + s[n..] == s
  {
  }

  /** One step of the scan: the first piece covers the first `n` characters
      and the rest is the scan of what follows. */
  lemma ScanStep(s: string, search: string) returns (n: nat)
    requires |search| > 0 && |s| > 0
    ensures 1 <= n <= |s|
    ensures Text(Scan(s, search)) == s[..n] + Text(Scan(s[n..], search))
  {
    if MatchesPrefix(s, search) {
      n := |search|;
      TextCons(Hit(s[..n]), Scan(s[n..], search));
    } else {
      n := 1;
      TextCons(Kept(s[0]), Scan(s[1..], search));
      assert [s[0]] == s[..1];
    }
  }

  /** Scanning loses and invents nothing: the pieces cover the input exactly. */
  lemma ScanCoversInput(s: string, search: string)
    ensures Text(Scan(s, search)) == s
  {
    if |search| == 0 {
      EmptyScanCoversInput(s);
    } else {
      NonEmptyScanCoversInput(s, search);
    }
  }

  lemma {:induction false} NonEmptyScanCoversInput(s: string, search: string)
    requires |search| > 0
    ensures Text(Scan(s, search)) == s
    decreases |s|
  {
    if |s| > 0 {
      var n := ScanStep(s, search);
      NonEmptyScanCoversInput(s[n..], search);
      SplitAt(s, n);
    }
  }

  lemma {:induction false} EmptyScanCoversInput(s: string)
    ensures Text(EmptyScan(s)) == s
  {
    if s != [] {
      EmptyScanCoversInput(s[1..]);
      TextAppend([Hit([]), Kept(s[0])], EmptyScan(s[1..]));
      assert [s[0]] + s[1..] == s;
    }
  }

  /** Every matched piece is an occurrence of the search string, up to case. */
  lemma {:induction false} ScanHitsMatch(s: string, search: string)
    ensures forall j :: 0 <= j < |Scan(s, search)| && Scan(s, search)[j].Hit? ==>
              UpperStr(Scan(s, search)[j].text) == UpperStr(search)
    decreases |s|
  {
    if |search| == 0 {
      EmptyScanHits(s);
    } else if |s| == 0 {
    } else if MatchesPrefix(s, search) {
      ScanHitsMatch(s[|search|..], search);
    } else {
      ScanHitsMatch(s[1..], search);
    }
  }

  lemma {:induction false} EmptyScanHits(s: string)
    ensures forall j :: 0 <= j < |EmptyScan(s)| && EmptyScan(s)[j].Hit? ==> EmptyScan(s)[j].text == []
  {
    if s != [] {
      EmptyScanHits(s[1..]);
    }
  }

  /** The scan is leftmost: a character is copied through only where no
      occurrence of a non-empty search string starts. */
  lemma {:induction false} ScanKeepsOnlyNonMatches(s: string, search: string)
    requires |search| > 0
    ensures forall j :: 0 <= j < |Scan(s, search)| && Scan(s, search)[j].Kept? ==>
              var at := |Text(Scan(s, search)[..j])|;
              at < |s| && !MatchesPrefix(s[at..], search)
    decreases |s|
  {
    var pieces := Scan(s, search);
    if |s| > 0 {
      var n := if MatchesPrefix(s, search) then |search| else 1;
      var head := pieces[..1];
      var rest := Scan(s[n..], search);
      assert pieces == head + rest;
      ScanKeepsOnlyNonMatches(s[n..], search);
      forall j | 0 <= j < |pieces| && pieces[j].Kept?
        ensures |Text(pieces[..j])| < |s| && !MatchesPrefix(s[|Text(pieces[..j])|..], search)
      {
        if j > 0 {
          assert pieces[..j] == head + rest[..j - 1];
          TextAppend(head, rest[..j - 1]);
          assert Text(head) == s[..n];
          assert s[n..][|Text(rest[..j - 1])|..] == s[n + |Text(rest[..j - 1])|..];
        }
      }
    }
  }

  /** The callback's choice of case for one replacement, as the script
      evidently means it: an all-uppercase match gives the upper-cased
      replacement; a match whose first character is unchanged by
      upper-casing gives the replacement with its first character
      upper-cased; any other match gives the lower-cased replacement. */
  function AdjustCase(matched: string, replacement: string): (r: string)
    ensures |r| == |replacement|
    ensures LowerStr(r) == LowerStr(replacement)
  {
    if matched == UpperStr(matched) then
      CaseForgets(replacement);
      UpperStr(replacement)
    else if matched[0] == Upper(matched[0]) then
      if replacement == [] then []
      else
        CaseForgets(replacement[..1]);
        assert replacement == replacement[..1] + replacement[1..];
        assert [Upper(replacement[0])] == UpperStr(replacement[..1]);
        CaseAppend(replacement[..1], replacement[1..]);
        CaseAppend(UpperStr(replacement[..1]), replacement[1..]);
        [Upper(replacement[0])] + replacement[1..]
    else
      CaseIdempotent(replacement);
      LowerStr(replacement)
  }

  /** The callback as written: with an empty replacement, the second branch
      reads a character that does not exist and throws a TypeError, shown
      here as `None`. */
  function AdjustCaseAsWritten(matched: string, replacement: string): (r: Option<string>)
    ensures r.None? ==> replacement == []
    ensures r.Some? ==> |r.value| == |replacement|
  {
    if matched == UpperStr(matched) then Some(UpperStr(replacement))
    else if matched[0] == Upper(matched[0]) then
      (if replacement == [] then None else Some([Upper(replacement[0])] + replacement[1..]))
    else Some(LowerStr(replacement))
  }

  /** Replacing a capitalised match by the empty string makes the callback as
      written throw, where deleting the match is evidently meant. */
  lemma EmptyReplacementThrows()
    ensures AdjustCaseAsWritten("Instabug", "") == None
    ensures AdjustCase("Instabug", "") == ""
  {
    assert UpperStr("Instabug")[1] == 'N';
  }

  /** The callback as written agrees with `AdjustCase` on every input except
      the one it throws on. */
  lemma {:induction false} AdjustCaseAgrees(matched: string, replacement: string)
    ensures AdjustCaseAsWritten(matched, replacement).None? <==>
              replacement == [] && matched != UpperStr(matched) && matched[0] == Upper(matched[0])
    ensures AdjustCaseAsWritten(matched, replacement).Some? ==>
              AdjustCaseAsWritten(matched, replacement).value == AdjustCase(matched, replacement)
  {
  }

  /** The case of the replacement follows the rules above, an all-uppercase
      match taking precedence over a capitalised one. */
  lemma {:induction false} AdjustCaseOnlyRecases(matched: string, replacement: string)
    ensures matched == UpperStr(matched) ==> AdjustCase(matched, replacement) == UpperStr(replacement)
    ensures matched != UpperStr(matched) && matched[0] != Upper(matched[0]) ==>
              AdjustCase(matched, replacement) == LowerStr(replacement)
    ensures matched != UpperStr(matched) && matched[0] == Upper(matched[0]) && replacement != [] ==>
              AdjustCase(matched, replacement)[0] == Upper(replacement[0])
              && AdjustCase(matched, replacement)[1..] == replacement[1..]
  {
  }

  /** Renders scanned pieces with each match replaced. */
  function Render(pieces: seq<Piece>, replacement: string): (r: string)
    ensures (forall j :: 0 <= j < |pieces| ==> pieces[j].Kept?) ==> r == Text(pieces)
  {
    if pieces == [] then []
    else (match pieces[0] case Kept(c) => [c] case Hit(t) => AdjustCase(t, replacement)) + Render(pieces[1..], replacement)
  }

  /** One `String.replace` with a global, case-insensitive pattern. */
  function ReplaceAll(s: string, p: Pair): (r: string)
    ensures |p.search| > |s| ==> r == s
  {
    ScanCoversInput(s, p.search);
    Render(Scan(s, p.search), p.replacement)
  }

  /** Every search string is longer than `n`. */
  predicate AllLongerThan(pairs: seq<Pair>, n: nat)
  {
    forall k :: 0 <= k < |pairs| ==> |pairs[k].search| > n
  }

  /** Every replacement is as long as its search string. */
  predicate AllSameLength(pairs: seq<Pair>)
  {
    forall k :: 0 <= k < |pairs| ==> |pairs[k].search| == |pairs[k].replacement|
  }

  /** `casePreservingReplace`: the pairs are applied in order, each to the
      previous output. */
  function CasePreservingReplace(s: string, pairs: seq<Pair>): (r: string)
    ensures AllLongerThan(pairs, |s|) ==> r == s
    ensures AllSameLength(pairs) ==> |r| == |s|
    decreases |pairs|
  {
    if pairs == [] then s
    else
      var next := ReplaceAll(s, pairs[0]);
      assert |pairs[0].search| == |pairs[0].replacement| ==> |next| == |s| by {
        if |pairs[0].search| == |pairs[0].replacement| {
          EqualLengthPreservesLength(s, pairs[0]);
        }
      }
      CasePreservingReplace(next, pairs[1..])
  }

  /** Applying a list of pairs is applying its first part, then the rest, and
      the empty list changes nothing. */
  lemma {:induction false} ReplaceComposes(s: string, p: seq<Pair>, q: seq<Pair>)
    ensures CasePreservingReplace(s, []) == s
    ensures CasePreservingReplace(s, p + q) == CasePreservingReplace(CasePreservingReplace(s, p), q)
    decreases |p|
  {
    if p != [] {
      assert (p + q)[0] == p[0];
      assert (p + q)[1..] == p[1..] + q;
      ReplaceComposes(ReplaceAll(s, p[0]), p[1..], q);
    } else {
      assert p + q == q;
    }
  }

  /** Text in which the search string does not occur is left as it is. */
  lemma {:induction false} NoOccurrenceUnchanged(s: string, p: Pair)
    requires |p.search| > 0
    requires forall i :: 0 <= i < |s| ==> !MatchesPrefix(s[i..], p.search)
    ensures ReplaceAll(s, p) == s
    decreases |s|
  {
    if |s| > 0 {
      assert !MatchesPrefix(s[0..], p.search);
      assert s[0..] == s;
      forall i | 0 <= i < |s[1..]| ensures !MatchesPrefix(s[1..][i..], p.search) {
        assert s[1..][i..] == s[i + 1..];
      }
      NoOccurrenceUnchanged(s[1..], p);
      assert [s[0]] + s[1..] == s;
    }
  }

  /** A replacement as long as its search string keeps the length of the
      text, since every match has the search string's length. */
  lemma {:induction false} EqualLengthPreservesLength(s: string, p: Pair)
    requires |p.search| == |p.replacement|
    ensures |ReplaceAll(s, p)| == |s|
    decreases |s|
  {
    if |p.search| == 0 {
      EmptyPairKeepsLength(s);
    } else if |s| > 0 {
      if MatchesPrefix(s, p.search) {
        AdjustCaseOnlyRecases(s[..|p.search|], p.replacement);
        EqualLengthPreservesLength(s[|p.search|..], p);
      } else {
        EqualLengthPreservesLength(s[1..], p);
      }
    }
  }

  lemma {:induction false} EmptyPairKeepsLength(s: string)
    ensures |Render(EmptyScan(s), [])| == |s|
  {
    if s != [] {
      EmptyPairKeepsLength(s[1..]);
      assert EmptyScan(s)[1..] == [Kept(s[0])] + EmptyScan(s[1..]);
      assert ([Kept(s[0])] + EmptyScan(s[1..]))[1..] == EmptyScan(s[1..]);
    }
  }

  /** A capitalised or lower-case occurrence takes the replacement's case
      pattern: "Instabug" becomes "Luciq", "INSTABUG" becomes "LUCIQ", and
      "instabug" becomes "luciq". */
  lemma ReplaceExamples()
    ensures AdjustCase("Instabug", "luciq") == "Luciq"
    ensures AdjustCase("INSTABUG", "Luciq") == "LUCIQ"
    ensures AdjustCase("instabug", "Luciq") == "luciq"
  {
    assert UpperStr("Instabug")[1] == 'N';
    assert UpperStr("instabug")[0] == 'I';
    assert UpperStr("INSTABUG") == "INSTABUG";
    assert UpperStr("Luciq") == "LUCIQ";
    assert LowerStr("Luciq") == "luciq";
  }
}
