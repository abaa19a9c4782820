/** Text normalisation of the search service (`normaliserTexte` in
    src/search/SearchService.cpp): the UTF-8 encodings of thirty accented
    French letters become the plain ASCII letter, then every byte that is not
    a C-locale letter or digit, a space or a hyphen is dropped, letters are
    lower-cased, and leading and trailing spaces are trimmed. */
module Normalise {
  import opened Wrappers
  import opened Seqs
  import opened Bytes

  // ---------------------------------------------------------------------
  // The accent table

  /** The lead byte of every two-byte UTF-8 sequence in the table. */
  const Lead: Byte := '\U{C3}'

  /** One entry: the lead byte and `second` encode an accented letter in
      UTF-8, and `plain` replaces it. */
  function Accent(second: Byte, plain: Byte): (Bytes, Bytes) {
    ([Lead, second], [plain])
  }

  /** The table, in its order: each entry is the two UTF-8 bytes of an
      accented letter and its plain lower-case replacement. */
  const Accents: seq<(Bytes, Bytes)> := [
    Accent('\U{A9}', 'e'), Accent('\U{A8}', 'e'), Accent('\U{AA}', 'e'), Accent('\U{AB}', 'e'),
    Accent('\U{A0}', 'a'), Accent('\U{A2}', 'a'), Accent('\U{A4}', 'a'),
    Accent('\U{B9}', 'u'), Accent('\U{BB}', 'u'), Accent('\U{BC}', 'u'),
    Accent('\U{AE}', 'i'), Accent('\U{AF}', 'i'),
    Accent('\U{B4}', 'o'), Accent('\U{B6}', 'o'),
    Accent('\U{A7}', 'c'),
    Accent('\U{89}', 'e'), Accent('\U{88}', 'e'), Accent('\U{8A}', 'e'), Accent('\U{8B}', 'e'),
    Accent('\U{80}', 'a'), Accent('\U{82}', 'a'), Accent('\U{84}', 'a'),
    Accent('\U{99}', 'u'), Accent('\U{9B}', 'u'), Accent('\U{9C}', 'u'),
    Accent('\U{8E}', 'i'), Accent('\U{8F}', 'i'),
    Accent('\U{94}', 'o'), Accent('\U{96}', 'o'),
    Accent('\U{87}', 'c')
  ]

  /** Every pattern of the table starts with the lead byte. */
  lemma AccentPatterns()
    ensures |Accents| == 30
    ensures forall k :: 0 <= k < |Accents| ==> |Accents[k].0| == 2 && Accents[k].0[0] == Lead
    ensures forall k :: 0 <= k < |Accents| ==> |Accents[k].1| == 1 && IsLowerLetter(Accents[k].1[0])
  {
  }

  // ---------------------------------------------------------------------
  // Replacing every occurrence of one pattern

  /** `s.find(p, from)`: the first position at or after `from` where `p`
      occurs, `None` for `npos`. */
  function Find(s: Bytes, p: Bytes, from: nat): (r: Option<nat>)
    requires |p| > 0
    ensures r.Some? ==> from <= r.value && OccursAt(s, p, r.value)
    ensures r.Some? ==> forall i :: from <= i < r.value ==> !OccursAt(s, p, i)
    ensures r.None? ==> forall i :: from <= i ==> !OccursAt(s, p, i)
    decreases |s| - from
  {
    if from + |p| > |s| then None
    else if s[from..from + |p|] == p then Some(from)
    else Find(s, p, from + 1)
  }

  /** The reference reading of the find-and-replace loop: scanning from the
      left, every occurrence of `p` that does not overlap an earlier
      replaced one becomes `q`; the text `q` brings in is not searched
      again. */
  function ReplaceAll(s: Bytes, p: Bytes, q: Bytes): Bytes
    requires |p| > 0
    decreases |s|
  {
    if |s| < |p| then s
    else if s[..|p|] == p then q + ReplaceAll(s[|p|..], p, q)
    else [s[0]] + ReplaceAll(s[1..], p, q)
  }

  /** A position where `p` does not start is copied as it is. */
  lemma ReplaceAllCopies(s: Bytes, p: Bytes, q: Bytes)
    requires |p| > 0 && |s| > 0 && !OccursAt(s, p, 0)
    ensures ReplaceAll(s, p, q) == [s[0]] + ReplaceAll(s[1..], p, q)
  {
    if |s| < |p| {
      NoOccurrenceShort(s[1..], p, q);
    }
  }

  lemma {:induction false} NoOccurrenceShort(s: Bytes, p: Bytes, q: Bytes)
    requires |p| > 0 && |s| < |p|
    ensures ReplaceAll(s, p, q) == s
  {
  }

  /** A stretch without an occurrence of `p` is copied unchanged. */
  lemma {:induction false} ReplaceAllSkip(s: Bytes, p: Bytes, q: Bytes, i: nat)
    requires |p| > 0 && i <= |s|
    requires forall j :: 0 <= j < i ==> !OccursAt(s, p, j)
    ensures ReplaceAll(s, p, q) == s[..i] + ReplaceAll(s[i..], p, q)
    decreases i
  {
    if i > 0 {
      ReplaceAllSkip(s, p, q, i - 1);
      var t := s[i - 1..];
      assert !OccursAt(s, p, i - 1);
      assert !OccursAt(t, p, 0) by {
        if |p| <= |t| {
          assert t[..|p|] == s[i - 1..i - 1 + |p|];
        }
      }
      ReplaceAllCopies(t, p, q);
      assert t[1..] == s[i..];
      assert s[..i] == s[..i - 1] + [t[0]];
    }
  }

  /** Without any occurrence of `p`, nothing changes. */
  lemma NoOccurrenceUnchanged(s: Bytes, p: Bytes, q: Bytes)
    requires |p| > 0
    requires forall j :: 0 <= j ==> !OccursAt(s, p, j)
    ensures ReplaceAll(s, p, q) == s
  {
    ReplaceAllSkip(s, p, q, |s|);
    assert s[..|s|] == s;
  }

  /** Occurrences in a suffix are occurrences in the whole, shifted. */
  lemma OccursInSuffix(s: Bytes, p: Bytes, pos: nat, j: nat)
    requires pos <= |s|
    ensures OccursAt(s[pos..], p, j) <==> OccursAt(s, p, pos + j)
  {
    if j <= |s| - pos - |p| {
      assert s[pos..][j..j + |p|] == s[pos + j..pos + j + |p|];
    }
  }

  /** When `find` reports no further occurrence, the rest is unchanged. */
  lemma ReplaceDone(temp: Bytes, p: Bytes, q: Bytes, pos: nat)
    requires |p| > 0 && pos <= |temp|
    requires forall i :: pos <= i ==> !OccursAt(temp, p, i)
    ensures temp[..pos] + ReplaceAll(temp[pos..], p, q) == temp
  {
    forall j | 0 <= j ensures !OccursAt(temp[pos..], p, j) {
      OccursInSuffix(temp, p, pos, j);
    }
    NoOccurrenceUnchanged(temp[pos..], p, q);
    assert temp[..pos] + temp[pos..] == temp;
  }

  /** An occurrence at the front is replaced. */
  lemma ReplaceAllAtFront(t: Bytes, p: Bytes, q: Bytes)
    requires |p| > 0 && OccursAt(t, p, 0)
    ensures ReplaceAll(t, p, q) == q + ReplaceAll(t[|p|..], p, q)
  {
  }

  /** From `pos` up to the next occurrence at `i`, the text is copied. */
  lemma SkipToOccurrence(temp: Bytes, p: Bytes, q: Bytes, pos: nat, i: nat)
    requires |p| > 0 && pos <= i <= |temp|
    requires forall j :: pos <= j < i ==> !OccursAt(temp, p, j)
    ensures ReplaceAll(temp[pos..], p, q) == temp[pos..i] + ReplaceAll(temp[i..], p, q)
  {
    var suffix := temp[pos..];
    forall j | 0 <= j < i - pos ensures !OccursAt(suffix, p, j) {
      OccursInSuffix(temp, p, pos, j);
    }
    ReplaceAllSkip(suffix, p, q, i - pos);
    assert suffix[i - pos..] == temp[i..];
    assert suffix[..i - pos] == temp[pos..i];
  }

  /** One replacement at the occurrence `find` reports keeps the reading of
      the loop's state as the same final text. */
  lemma ReplaceStep(temp: Bytes, p: Bytes, q: Bytes, pos: nat, i: nat)
    requires |p| > 0 && pos <= i && OccursAt(temp, p, i)
    requires ReplaceAll(temp[pos..], p, q) == temp[pos..i] + ReplaceAll(temp[i..], p, q)
    ensures var next := temp[..i] + q + temp[i + |p|..];
            next[..i + |q|] + ReplaceAll(next[i + |q|..], p, q)
            == temp[..pos] + ReplaceAll(temp[pos..], p, q)
  {
    ReplaceAtOccurrence(temp, p, q, i);
    Regroup(temp, q, pos, i, i + |p|, ReplaceAll(temp[i + |p|..], p, q));
  }

  /** The bookkeeping of one replacement, on plain sequences. */
  lemma Regroup(temp: Bytes, q: Bytes, pos: nat, i: nat, k: nat, r: Bytes)
    requires pos <= i <= k <= |temp|
    ensures var next := temp[..i] + q + temp[k..];
            next[i + |q|..] == temp[k..] &&
            next[..i + |q|] + r == temp[..pos] + (temp[pos..i] + (q + r))
  {
    var next := temp[..i] + q + temp[k..];
    assert next[..i + |q|] == temp[..i] + q;
    assert temp[..i] == temp[..pos] + temp[pos..i];
  }

  lemma ReplaceAtOccurrence(temp: Bytes, p: Bytes, q: Bytes, i: nat)
    requires |p| > 0 && OccursAt(temp, p, i)
    ensures ReplaceAll(temp[i..], p, q) == q + ReplaceAll(temp[i + |p|..], p, q)
  {
    var at := temp[i..];
    assert at[..|p|] == temp[i..i + |p|];
    ReplaceAllAtFront(at, p, q);
    assert at[|p|..] == temp[i + |p|..];
  }

  /** One `while ((pos = temp.find(accent, pos)) != npos)` loop. */
  method ReplaceEvery(s: Bytes, p: Bytes, q: Bytes) returns (temp: Bytes)
    requires |p| > 0
    ensures temp == ReplaceAll(s, p, q)
  {
    temp := s;
    var pos: nat := 0;
    while true
      invariant pos <= |temp|
      invariant temp[..pos] + ReplaceAll(temp[pos..], p, q) == ReplaceAll(s, p, q)
      decreases |temp| - pos
    {
      var found := Find(temp, p, pos);
      if found.None? {
        ReplaceDone(temp, p, q, pos);
        return;
      }
      var i := found.value;
      SkipToOccurrence(temp, p, q, pos, i);
      ReplaceStep(temp, p, q, pos, i);
      temp := temp[..i] + q + temp[i + |p|..];
      pos := i + |q|;
    }
  }

  /** The whole table applied in order, each entry to the result of the
      entries before it. */
  function ApplyTable(s: Bytes, table: seq<(Bytes, Bytes)>): Bytes
    requires forall k :: 0 <= k < |table| ==> |table[k].0| > 0
  {
    if table == [] then s
    else
      var last := table[|table| - 1];
      ReplaceAll(ApplyTable(s, table[..|table| - 1]), last.0, last.1)
  }

  method ReplaceAccents(texte: Bytes) returns (temp: Bytes)
    ensures temp == ApplyTable(texte, Accents)
  {
    AccentPatterns();
    temp := texte;
    for k := 0 to |Accents|
      invariant temp == ApplyTable(texte, Accents[..k])
    {
      var (accent, replacement) := Accents[k];
      temp := ReplaceEvery(temp, accent, replacement);
      assert Accents[..k + 1][..k] == Accents[..k];
    }
    assert Accents[..|Accents|] == Accents;
  }

  /** A pattern whose first byte does not occur is never replaced. */
  lemma {:induction false} ReplaceAllAbsentHead(s: Bytes, p: Bytes, q: Bytes)
    requires |p| > 0 && p[0] !in s
    ensures ReplaceAll(s, p, q) == s
    decreases |s|
  {
    if |s| >= |p| {
      assert s[..|p|][0] == s[0];
      ReplaceAllAbsentHead(s[1..], p, q);
    }
  }

  /** Text without the lead byte goes through the accent table unchanged. */
  lemma {:induction false} ApplyTableWithoutLead(s: Bytes, table: seq<(Bytes, Bytes)>)
    requires forall k :: 0 <= k < |table| ==> |table[k].0| > 0 && table[k].0[0] == Lead
    requires Lead !in s
    ensures ApplyTable(s, table) == s
  {
    if table != [] {
      ApplyTableWithoutLead(s, table[..|table| - 1]);
      ReplaceAllAbsentHead(s, table[|table| - 1].0, table[|table| - 1].1);
    }
  }

  // ---------------------------------------------------------------------
  // Filtering, lower-casing, trimming

  /** The bytes the second loop keeps. */
  predicate Kept(c: char) {
    IsAlnum(c) || c == ' ' || c == '-'
  }

  /** What the second loop appends to `resultat`: the kept bytes, lower-cased. */
  function Filtered(s: Bytes): (r: Bytes)
    ensures forall i :: 0 <= i < |r| ==> IsLowerLetter(r[i]) || IsDigit(r[i]) || r[i] == ' ' || r[i] == '-'
  {
    if s == [] then []
    else
      var c := s[|s| - 1];
      Filtered(s[..|s| - 1]) + (if Kept(c) then [ToLower(c)] else [])
  }

  method FilterLower(temp: Bytes) returns (resultat: Bytes)
    ensures resultat == Filtered(temp)
  {
    resultat := [];
    for i := 0 to |temp|
      invariant resultat == Filtered(temp[..i])
    {
      var c := temp[i];
      if IsAlnum(c) || c == ' ' || c == '-' {
        resultat := resultat + [ToLower(c)];
      }
      assert temp[..i + 1][..i] == temp[..i];
    }
    assert temp[..|temp|] == temp;
  }

  /** Text made of lower-case letters, digits, spaces and hyphens. */
  predicate InAlphabet(s: Bytes) {
    forall i :: 0 <= i < |s| ==> IsLowerLetter(s[i]) || IsDigit(s[i]) || s[i] == ' ' || s[i] == '-'
  }

  /** Filtering text already in the output alphabet keeps all of it. */
  lemma {:induction false} FilteredFixed(s: Bytes)
    requires InAlphabet(s)
    ensures Filtered(s) == s
  {
    if s != [] {
      FilteredFixed(s[..|s| - 1]);
      assert s == s[..|s| - 1] + [s[|s| - 1]];
    }
  }

  /** The number of spaces at the start of `s`. */
  function LeadingSpaces(s: Bytes): (n: nat)
    ensures n <= |s|
    ensures forall i :: 0 <= i < n ==> s[i] == ' '
    ensures n < |s| ==> s[n] != ' '
  {
    if s == [] || s[0] != ' ' then 0 else 1 + LeadingSpaces(s[1..])
  }

  /** The number of spaces at the end of `s`. */
  function TrailingSpaces(s: Bytes): (n: nat)
    ensures n <= |s|
    ensures forall i :: |s| - n <= i < |s| ==> s[i] == ' '
    ensures n < |s| ==> s[|s| - 1 - n] != ' '
  {
    if s == [] || s[|s| - 1] != ' ' then 0 else 1 + TrailingSpaces(s[..|s| - 1])
  }

  /** The trim: `find_first_not_of(" ")` and `find_last_not_of(" ")`, and
      the empty text when there is no byte other than a space. */
  function Trim(s: Bytes): (r: Bytes)
    ensures r == [] || (r[0] != ' ' && r[|r| - 1] != ' ')
  {
    var start := LeadingSpaces(s);
    if start == |s| then []
    else s[start..|s| - TrailingSpaces(s)]
  }

  /** The trim only removes spaces from the two ends. */
  lemma TrimDecomposes(s: Bytes) returns (front: nat, back: nat)
    ensures front + |Trim(s)| + back == |s|
    ensures s == s[..front] + Trim(s) + s[|s| - back..]
    ensures forall i :: 0 <= i < front ==> s[i] == ' '
    ensures forall i :: |s| - back <= i < |s| ==> s[i] == ' '
  {
    front := LeadingSpaces(s);
    if front == |s| {
      back := 0;
      assert s == s[..front];
    } else {
      back := TrailingSpaces(s);
      assert s == s[..front] + s[front..|s| - back] + s[|s| - back..];
    }
  }

  /** Text with no space at either end is its own trim. */
  lemma TrimFixed(s: Bytes)
    requires s == [] || (s[0] != ' ' && s[|s| - 1] != ' ')
    ensures Trim(s) == s
  {
    if s != [] {
      assert LeadingSpaces(s) == 0;
      assert TrailingSpaces(s) == 0;
    }
  }

  // ---------------------------------------------------------------------
  // The whole normalisation

  /** The text after the accent loops. */
  function Unaccented(texte: Bytes): Bytes {
    AccentPatterns();
    ApplyTable(texte, Accents)
  }

  /** The reference reading of `normaliserTexte`. */
  function Normalised(texte: Bytes): Bytes {
    Trim(Filtered(Unaccented(texte)))
  }

  /** `normaliserTexte`: the accent loops, the filter loop, the trim. */
  method NormaliserTexte(texte: Bytes) returns (r: Bytes)
    ensures r == Normalised(texte)
  {
    var temp := ReplaceAccents(texte);
    var resultat := FilterLower(temp);
    var start := LeadingSpaces(resultat);
    if start == |resultat| {
      return [];
    }
    var end := |resultat| - 1 - TrailingSpaces(resultat);
    r := resultat[start..end + 1];
  }

  /** The result holds only lower-case ASCII letters, digits, spaces and
      hyphens, and neither starts nor ends with a space. */
  lemma NormalisedShape(texte: Bytes)
    ensures InAlphabet(Normalised(texte))
    ensures Normalised(texte) == [] || (Normalised(texte)[0] != ' ' && Normalised(texte)[|Normalised(texte)| - 1] != ' ')
  {
    AccentPatterns();
    TrimKeepsAlphabet(Filtered(ApplyTable(texte, Accents)));
  }

  /** Trimming text in the output alphabet leaves it there. */
  lemma TrimKeepsAlphabet(f: Bytes)
    requires InAlphabet(f)
    ensures InAlphabet(Trim(f))
  {
    var front, back := TrimDecomposes(f);
    var r := Trim(f);
    forall i | 0 <= i < |r|
      ensures IsLowerLetter(r[i]) || IsDigit(r[i]) || r[i] == ' ' || r[i] == '-'
    {
      assert r[i] == f[front + i];
    }
  }

  /** Normalising twice gives the same text as normalising once. */
  lemma NormaliseIdempotent(texte: Bytes)
    ensures Normalised(Normalised(texte)) == Normalised(texte)
  {
    AccentPatterns();
    var r := Normalised(texte);
    NormalisedShape(texte);
    assert forall i :: 0 <= i < |r| ==> r[i] != Lead;
    ApplyTableWithoutLead(r, Accents);
    FilteredFixed(r);
    TrimFixed(r);
  }

  /** No byte of `s` survives the filter except as a space. */
  predicate NothingKept(s: Bytes) {
    forall i :: 0 <= i < |s| ==> !IsAlnum(s[i]) && s[i] != '-'
  }

  /** The text normalises to the empty text exactly when, once the accent
      table has been applied, it holds no letter, digit or hyphen: an
      accented letter of the table becomes a letter and survives, any other
      byte outside ASCII is dropped. */
  lemma NothingKeptIsEmpty(texte: Bytes)
    ensures Normalised(texte) == [] <==> NothingKept(Unaccented(texte))
  {
    var a := Unaccented(texte);
    var f := Filtered(a);
    assert Normalised(texte) == Trim(f);
    if NothingKept(a) {
      NothingKeptFilter(a);
      assert LeadingSpaces(f) == |f|;
    } else {
      var i :| 0 <= i < |a| && (IsAlnum(a[i]) || a[i] == '-');
      var j := KeptShows(a, i);
      var front, back := TrimDecomposes(f);
      assert Trim(f) != [] by {
        assert f[j] != ' ';
      }
    }
  }

  /** A kept letter, digit or hyphen leaves a byte other than a space in
      the filtered text. */
  lemma {:induction false} KeptShows(s: Bytes, i: nat) returns (j: nat)
    requires i < |s| && (IsAlnum(s[i]) || s[i] == '-')
    ensures j < |Filtered(s)| && Filtered(s)[j] != ' '
  {
    var init := s[..|s| - 1];
    if i == |s| - 1 {
      j := |Filtered(init)|;
    } else {
      j := KeptShows(init, i);
    }
  }

  /** The multiplication sign (C3 97 in UTF-8) is not in the accent table:
      both of its bytes are dropped and it normalises to the empty text. */
  lemma MultiplicationSignVanishes()
    ensures Normalised(['\U{C3}', '\U{97}']) == []
  {
    var s: Bytes := ['\U{C3}', '\U{97}'];
    AccentPatterns();
    forall k | 0 <= k < |Accents| ensures !Contains(s, Accents[k].0) {
      assert Accents[k].0[1] != '\U{97}';
    }
    ApplyTableUnmatched(s, Accents);
    NothingKeptIsEmpty(s);
  }

  /** A table none of whose patterns occurs leaves the text unchanged. */
  lemma {:induction false} ApplyTableUnmatched(s: Bytes, table: seq<(Bytes, Bytes)>)
    requires forall k :: 0 <= k < |table| ==> |table[k].0| > 0 && !Contains(s, table[k].0)
    ensures ApplyTable(s, table) == s
  {
    if table != [] {
      ApplyTableUnmatched(s, table[..|table| - 1]);
      var p := table[|table| - 1].0;
      assert !Contains(s, p);
      NoOccurrenceUnchanged(s, p, table[|table| - 1].1);
    }
  }

  lemma {:induction false} NothingKeptFilter(s: Bytes)
    requires forall i :: 0 <= i < |s| ==> !IsAlnum(s[i]) && s[i] != '-'
    ensures forall i :: 0 <= i < |Filtered(s)| ==> Filtered(s)[i] == ' '
  {
    if s != [] {
      NothingKeptFilter(s[..|s| - 1]);
    }
  }
}
