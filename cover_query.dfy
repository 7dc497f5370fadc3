/**
 * The search text sent to the cover-art service: the band and the title,
 * each cleaned of characters that make the search fail, joined by a space.
 * The helper the source calls to do each replacement ignores what it is
 * asked to replace; both that helper and the replacement it stands for are
 * modelled here.
 */
module CoverQuery {

  /** The cleaning table, flattened: each even entry is replaced by the entry after it. */
  const Replacer: seq<string> := [
    "\U{266F}", "#",
    "\U{221E}", "infinity",
    "\U{00AE}", "",
    "\U{2019}", "'",
    "\U{201C}", "\"",
    "\U{201D}", "\"",
    "&quot;", "\""
  ]

  /** The single characters the table is meant to remove from a search. */
  const Problematic: set<char> :=
    {'\U{266F}', '\U{221E}', '\U{00AE}', '\U{2019}', '\U{201C}', '\U{201D}'}

  /** The characters the table puts in their place. */
  const Substitutes: set<char> := {'#', 'i', 'n', 'f', 't', 'y', '\'', '"'}

  /** The source's `replaceAll`: it converts its text to runes and back and ignores the other two arguments. */
  function ReplaceAllAsWritten(s: string, from: string, to: string): string {
    s
  }

  /**
   * Go's strings.ReplaceAll: every non-overlapping occurrence of `from`,
   * leftmost first, becomes `to`; an empty `from` matches before every
   * character and at the end.
   */
  function ReplaceAll(s: string, from: string, to: string): string
    decreases |s|
  {
    if from == [] then
      if s == [] then to else to + [s[0]] + ReplaceAll(s[1..], from, to)
    else if |from| <= |s| && s[..|from|] == from then
      to + ReplaceAll(s[|from|..], from, to)
    else if s == [] then []
    else [s[0]] + ReplaceAll(s[1..], from, to)
  }

  /** A replacement brings in no character that was neither in the text nor in the substitute. */
  lemma {:induction false} ReplaceAllChars(s: string, from: string, to: string, c: char)
    requires from != []
    ensures c in ReplaceAll(s, from, to) ==> c in s || c in to
    decreases |s|
  {
    if |from| <= |s| && s[..|from|] == from {
      ReplaceAllChars(s[|from|..], from, to, c);
    } else if s != [] {
      ReplaceAllChars(s[1..], from, to, c);
    }
  }

  /** Replacing a single character by text without it leaves none of it behind. */
  lemma {:induction false} ReplaceAllRemovesChar(s: string, x: char, to: string)
    requires x !in to
    ensures x !in ReplaceAll(s, [x], to)
    decreases |s|
  {
    if 1 <= |s| && s[..1] == [x] {
      ReplaceAllRemovesChar(s[1..], x, to);
    } else if s != [] {
      ReplaceAllRemovesChar(s[1..], x, to);
    }
  }

  /** Text in which the pattern cannot even start is returned unchanged. */
  lemma {:induction false} ReplaceAllNoMatch(s: string, from: string, to: string)
    requires from != [] && from[0] !in s
    ensures ReplaceAll(s, from, to) == s
    decreases |s|
  {
    if s != [] {
      assert s[0] != from[0];
      ReplaceAllNoMatch(s[1..], from, to);
    }
  }

  /** The text after the first n pairs of a flattened table were applied, in table order. */
  function CleanedUpTo(s: string, table: seq<string>, n: nat): string
    requires 2 * n <= |table|
  {
    if n == 0 then s
    else ReplaceAll(CleanedUpTo(s, table, n - 1), table[2 * (n - 1)], table[2 * (n - 1) + 1])
  }

  /** What the cleaner is meant to produce: the text after the whole table was applied. */
  function Cleaned(s: string): string {
    CleanedUpTo(s, Replacer, |Replacer| / 2)
  }

  lemma {:induction false} CleanedUpToChars(s: string, n: nat, c: char)
    requires n <= |Replacer| / 2
    ensures c in CleanedUpTo(s, Replacer, n) ==>
      c in Substitutes ||
      (c in s && forall m :: 0 <= m < n && m < 6 ==> [c] != Replacer[2 * m])
  {
    if n > 0 {
      var from, to := Replacer[2 * (n - 1)], Replacer[2 * (n - 1) + 1];
      CleanedUpToChars(s, n - 1, c);
      ReplaceAllChars(CleanedUpTo(s, Replacer, n - 1), from, to, c);
      assert forall x :: x in to ==> x in Substitutes;
      if n - 1 < 6 {
        assert |from| == 1 && from[0] !in to;
        assert from == [from[0]];
        ReplaceAllRemovesChar(CleanedUpTo(s, Replacer, n - 1), from[0], to);
      }
    }
  }

  /** Cleaning removes every problematic character. */
  lemma CleanedRemovesProblematic(s: string, c: char)
    ensures c in Cleaned(s) ==> c !in Problematic
  {
    CleanedUpToChars(s, |Replacer| / 2, c);
    if c == '\U{266F}' { assert [c] == Replacer[2 * 0]; }
    else if c == '\U{221E}' { assert [c] == Replacer[2 * 1]; }
    else if c == '\U{00AE}' { assert [c] == Replacer[2 * 2]; }
    else if c == '\U{2019}' { assert [c] == Replacer[2 * 3]; }
    else if c == '\U{201C}' { assert [c] == Replacer[2 * 4]; }
    else if c == '\U{201D}' { assert [c] == Replacer[2 * 5]; }
  }

  /** Every pattern of the table starts with a problematic character or with '&'. */
  lemma PatternHead(m: nat)
    requires m < |Replacer| / 2
    ensures Replacer[2 * m] != [] && (Replacer[2 * m][0] in Problematic || Replacer[2 * m][0] == '&')
  {
    if m == 0 { assert Replacer[2 * m] == "\U{266F}"; }
    else if m == 1 { assert Replacer[2 * m] == "\U{221E}"; }
    else if m == 2 { assert Replacer[2 * m] == "\U{00AE}"; }
    else if m == 3 { assert Replacer[2 * m] == "\U{2019}"; }
    else if m == 4 { assert Replacer[2 * m] == "\U{201C}"; }
    else if m == 5 { assert Replacer[2 * m] == "\U{201D}"; }
    else { assert Replacer[2 * m] == "&quot;"; }
  }

  lemma {:induction false} CleanedUpToPlain(s: string, table: seq<string>, n: nat)
    requires 2 * n <= |table|
    requires forall m :: 0 <= m < n ==> table[2 * m] != [] && table[2 * m][0] !in s
    ensures CleanedUpTo(s, table, n) == s
  {
    if n > 0 {
      CleanedUpToPlain(s, table, n - 1);
      ReplaceAllNoMatch(s, table[2 * (n - 1)], table[2 * (n - 1) + 1]);
    }
  }

  /** Text without problematic characters and without '&' is left as it is. */
  lemma CleanedKeepsPlainText(s: string)
    requires forall i :: 0 <= i < |s| ==> s[i] !in Problematic && s[i] != '&'
    ensures Cleaned(s) == s
  {
    forall m | 0 <= m < |Replacer| / 2
      ensures Replacer[2 * m] != [] && Replacer[2 * m][0] !in s
    {
      PatternHead(m);
    }
    CleanedUpToPlain(s, Replacer, |Replacer| / 2);
  }

  /** The cleaner as the source runs it: every step calls `replaceAll`, so the text comes back unchanged. */
  method CleanAsWritten(s: string) returns (r: string)
    ensures r == s
  {
    r := s;
    var i := 0;
    while i < |Replacer|
      invariant 0 <= i <= |Replacer| && i % 2 == 0
      invariant r == s
    {
      r := ReplaceAllAsWritten(r, Replacer[i], Replacer[i + 1]);
      i := i + 2;
    }
  }

  /** The table's first pair maps the sharp sign to '#', yet the source's step hands the sharp sign back. */
  lemma AsWrittenKeepsSharp()
    ensures ReplaceAllAsWritten("\U{266F}", Replacer[0], Replacer[1]) == "\U{266F}"
    ensures ReplaceAll("\U{266F}", Replacer[0], Replacer[1]) == "#"
  {
    var sharp := "\U{266F}";
    assert sharp[..1] == Replacer[0] && sharp[1..] == [];
  }

  /** The cleaner's loop over a flattened table, with each step a real replacement. */
  method ReplacePairs(s: string, table: seq<string>) returns (r: string)
    requires |table| % 2 == 0
    ensures r == CleanedUpTo(s, table, |table| / 2)
  {
    r := s;
    var i := 0;
    ghost var pairs: nat := 0;
    while i < |table|
      invariant i == 2 * pairs <= |table|
      invariant r == CleanedUpTo(s, table, pairs)
    {
      r := ReplaceAll(r, table[i], table[i + 1]);
      i, pairs := i + 2, pairs + 1;
    }
  }

  /** The cleaner as intended: the table applied pair by pair, leaving no problematic character. */
  method Clean(s: string) returns (r: string)
    ensures r == Cleaned(s)
    ensures forall c :: c in r ==> c !in Problematic
  {
    r := ReplacePairs(s, Replacer);
    forall c | c in r ensures c !in Problematic {
      CleanedRemovesProblematic(s, c);
    }
  }

  /**
   * The search text the program sends for one album: the band, a space and
   * the title, each passed through the cleaner as written, which hands them
   * back unchanged.
   */
  function Query(title: string, band: string): string {
    band + " " + title
  }

  /** The search text the cleaner was meant to produce: cleaned band, a space, cleaned title. */
  function IntendedQuery(title: string, band: string): string {
    Cleaned(band) + " " + Cleaned(title)
  }

  /** The intended search text holds no problematic character, whatever the album's band and title. */
  lemma IntendedQueryHasNoProblematic(title: string, band: string, c: char)
    ensures c in IntendedQuery(title, band) ==> c !in Problematic
  {
    CleanedRemovesProblematic(band, c);
    CleanedRemovesProblematic(title, c);
  }

  /** For a band and title without problematic characters or '&', the program sends the intended search text. */
  lemma QueryIntendedOnPlainText(title: string, band: string)
    requires forall i :: 0 <= i < |band| ==> band[i] !in Problematic && band[i] != '&'
    requires forall i :: 0 <= i < |title| ==> title[i] !in Problematic && title[i] != '&'
    ensures Query(title, band) == IntendedQuery(title, band)
  {
    CleanedKeepsPlainText(band);
    CleanedKeepsPlainText(title);
  }

  /**
   * The album-cover lookup, given the part that sends the search to the
   * service and reads the first result's cover (empty on any failure).
   */
  function CoverLookup(search: string -> string): (string, string) -> string {
    (title, band) => search(Query(title, band))
  }

  /** The lookup for one album, as the background loop calls it: the search text is built with the cleaner as written. */
  method CoverFor(search: string -> string, title: string, band: string) returns (cover: string)
    ensures cover == search(band + " " + title)
  {
    var cleanBand := CleanAsWritten(band);
    var cleanTitle := CleanAsWritten(title);
    cover := search(cleanBand + " " + cleanTitle);
  }
}
