/**
 * The string operations the cleaning applies cell by cell: header snake-casing,
 * stripping of currency marks before numeric parsing, title-casing and the
 * collapsing of error labels into the sentinel. Case conversion is ASCII only.
 */
module Text {
  import opened Sequences

  /** The sentinel label written into categorical gaps. */
  const UNKNOWN: string := "Unknown"

  /** The labels that the correction step rewrites to the sentinel. */
  const ERROR_LABELS: seq<string> := ["Error", "ERROR", "Unknown", "unknown"]

  predicate IsUpper(c: char) { 'A' <= c <= 'Z' }
  predicate IsLower(c: char) { 'a' <= c <= 'z' }
  predicate IsLetter(c: char) { IsUpper(c) || IsLower(c) }

  function ToLower(c: char): (d: char)
    ensures !IsUpper(d) && IsLetter(d) == IsLetter(c)
    ensures !IsUpper(c) ==> d == c
  {
    if IsUpper(c) then (c as int + 32) as char else c
  }

  function ToUpper(c: char): (d: char)
    ensures !IsLower(d) && IsLetter(d) == IsLetter(c)
    ensures !IsLower(c) ==> d == c
    ensures ToLower(d) == ToLower(c)
  {
    if IsLower(c) then (c as int - 32) as char else c
  }

  /** The two strings spell the same thing up to ASCII case. */
  predicate EqualIgnoringCase(a: string, b: string) {
    |a| == |b| && forall i :: 0 <= i < |a| ==> ToLower(a[i]) == ToLower(b[i])
  }

  /** `str.lower`: the same text with no upper-case letter left. */
  function Lower(s: string): (r: string)
    ensures EqualIgnoringCase(r, s)
    ensures forall i :: 0 <= i < |r| ==> !IsUpper(r[i])
  {
    seq(|s|, i requires 0 <= i < |s| => ToLower(s[i]))
  }

  /**
   * `str.replace` with a one-character pattern: every `target` becomes
   * `replacement`. The header rename uses it for spaces; its meaning there is
   * stated by `SnakeCase`.
   */
  function ReplaceChar(s: string, target: char, replacement: char): string {
    seq(|s|, i requires 0 <= i < |s| => if s[i] == target then replacement else s[i])
  }

  // ---------------------------------------------------------------------------
  // Header normalisation
  // ---------------------------------------------------------------------------

  /** A column name as the cleaning renames it: spaces to underscores, then lower case. */
  function SnakeCase(header: string): (r: string)
    ensures |r| == |header|
    ensures forall i :: 0 <= i < |r| ==> r[i] != ' ' && !IsUpper(r[i])
    ensures forall i :: 0 <= i < |r| ==>
              if header[i] == ' ' then r[i] == '_' else ToLower(r[i]) == ToLower(header[i])
  {
    Lower(ReplaceChar(header, ' ', '_'))
  }

  /** Renaming an already renamed header changes nothing. */
  lemma SnakeCaseIdempotent(header: string)
    ensures SnakeCase(SnakeCase(header)) == SnakeCase(header)
  {
    var once := SnakeCase(header);
    var twice := SnakeCase(once);
    forall i | 0 <= i < |once| ensures twice[i] == once[i] {
      assert !IsUpper(once[i]) && once[i] != ' ';
    }
  }

  // ---------------------------------------------------------------------------
  // Currency stripping
  // ---------------------------------------------------------------------------

  /** `str.replace(c, "")`: every occurrence of `c` deleted, everything else kept in order. */
  function RemoveChar(s: string, c: char): (r: string)
    ensures c !in r
    ensures IsSubsequence(r, s)
    ensures forall d :: d != c ==> multiset(r)[d] == multiset(s)[d]
    ensures c !in s ==> r == s
  {
    if s == [] then []
    else
      var rest := RemoveChar(s[1..], c);
      assert s == [s[0]] + s[1..];
      if s[0] == c then
        SubsequenceSkip(s[0], rest, s[1..]);
        rest
      else
        SubsequenceCons(s[0], rest, s[1..]);
        [s[0]] + rest
  }

  /** The text handed to the numeric parser: `$` removed first, then `,`. */
  function StripCurrency(s: string): (r: string)
    ensures '$' !in r && ',' !in r
    ensures forall d :: d != '$' && d != ',' ==> multiset(r)[d] == multiset(s)[d]
    ensures '$' !in s && ',' !in s ==> r == s
  {
    var once := RemoveChar(s, '$');
    assert multiset(RemoveChar(once, ','))['$'] == multiset(once)['$'] == 0;
    RemoveChar(once, ',')
  }

  /** A one-pass reference for the stripping: drop every `$` and `,`. */
  function DropCurrencyMarks(s: string): (r: string)
    ensures '$' !in r && ',' !in r
    ensures IsSubsequence(r, s)
    ensures forall d :: d != '$' && d != ',' ==> multiset(r)[d] == multiset(s)[d]
  {
    if s == [] then []
    else
      var rest := DropCurrencyMarks(s[1..]);
      assert s == [s[0]] + s[1..];
      if s[0] == '$' || s[0] == ',' then
        SubsequenceSkip(s[0], rest, s[1..]);
        rest
      else
        SubsequenceCons(s[0], rest, s[1..]);
        [s[0]] + rest
  }

  /** The two `replace` calls delete exactly the currency marks and keep the rest in order. */
  lemma {:induction false} StripCurrencyDropsMarks(s: string)
    ensures StripCurrency(s) == DropCurrencyMarks(s)
  {
    if s != [] {
      StripCurrencyDropsMarks(s[1..]);
    }
  }

  /** Stripping distributes over concatenation, so a `$` or `,` anywhere is simply ignored. */
  lemma {:induction false} StripCurrencyAppend(a: string, b: string)
    ensures StripCurrency(a + b) == StripCurrency(a) + StripCurrency(b)
  {
    if a == [] {
      assert a + b == b;
    } else {
      assert (a + b)[1..] == a[1..] + b;
      StripCurrencyAppend(a[1..], b);
    }
  }

  /** Stripping is idempotent, and text without currency marks is passed through as is. */
  lemma StripCurrencyIdempotent(s: string)
    ensures StripCurrency(StripCurrency(s)) == StripCurrency(s)
    ensures '$' !in s && ',' !in s ==> StripCurrency(s) == s
  {
    StripCurrencyDropsMarks(s);
    StripCurrencyDropsMarks(StripCurrency(s));
  }

  // ---------------------------------------------------------------------------
  // Title casing and label correction
  // ---------------------------------------------------------------------------

  /** Position `i` begins a run of letters. */
  predicate StartsWord(s: string, i: int)
    requires 0 <= i < |s|
  {
    i == 0 || !IsLetter(s[i - 1])
  }

  /** Every letter that begins a run of letters is upper case and every other letter lower case. */
  predicate IsTitled(s: string) {
    forall i :: 0 <= i < |s| && IsLetter(s[i]) ==>
      if StartsWord(s, i) then !IsLower(s[i]) else !IsUpper(s[i])
  }

  /** `str.title` on ASCII text: the titled spelling of the same letters. */
  function TitleCase(s: string): (r: string)
    ensures EqualIgnoringCase(r, s)
    ensures IsTitled(r)
  {
    seq(|s|, i requires 0 <= i < |s| =>
      if StartsWord(s, i) then ToUpper(s[i]) else ToLower(s[i]))
  }

  /** A string is fixed by `TitleCase` exactly when it is already titled. */
  lemma TitleCaseFixpoint(s: string)
    ensures TitleCase(s) == s <==> IsTitled(s)
  {
    if IsTitled(s) {
      TitledUnique(TitleCase(s), s);
    }
  }

  /** Two titled strings that agree up to case are equal. */
  lemma TitledUnique(a: string, b: string)
    requires EqualIgnoringCase(a, b) && IsTitled(a) && IsTitled(b)
    ensures a == b
  {
    forall i | 0 <= i < |a| ensures a[i] == b[i] {
      assert ToLower(a[i]) == ToLower(b[i]);
      if IsLetter(a[i]) {
        assert IsLetter(b[i]);
        if i > 0 {
          assert ToLower(a[i - 1]) == ToLower(b[i - 1]);
          assert IsLetter(a[i - 1]) == IsLetter(b[i - 1]);
        }
      }
    }
  }

  /** Title-casing twice is title-casing once. */
  lemma TitleCaseIdempotent(s: string)
    ensures TitleCase(TitleCase(s)) == TitleCase(s)
  {
    TitleCaseFixpoint(TitleCase(s));
  }

  /** The label correction: the four error spellings become the sentinel, others stay. */
  function CorrectLabel(s: string): (r: string)
    ensures s in ERROR_LABELS ==> r == UNKNOWN
    ensures s !in ERROR_LABELS ==> r == s
    ensures r != "Error" && r != "ERROR" && r != "unknown"
  {
    if s in ERROR_LABELS then UNKNOWN else s
  }

  /** A text cell after title-casing and label correction. */
  function Normalize(s: string): string {
    CorrectLabel(TitleCase(s))
  }

  /** Title-casing `s` yields the titled word `w` exactly when `s` spells `w` in any case. */
  lemma TitleCaseIsWord(s: string, w: string)
    requires IsTitled(w)
    ensures TitleCase(s) == w <==> EqualIgnoringCase(s, w)
  {
    if EqualIgnoringCase(s, w) {
      TitledUnique(TitleCase(s), w);
    }
  }

  /**
   * Normalising collapses every case variant of "error" and "unknown" into the
   * sentinel and leaves the title-cased text of anything else; the result is
   * never one of the raw error spellings.
   */
  lemma NormalizeCollapsesErrors(s: string)
    ensures Normalize(s) == UNKNOWN <==>
              EqualIgnoringCase(s, "Error") || EqualIgnoringCase(s, UNKNOWN)
    ensures Normalize(s) != UNKNOWN ==> Normalize(s) == TitleCase(s)
    ensures Normalize(s) != "Error" && Normalize(s) != "ERROR" && Normalize(s) != "unknown"
    ensures TitleCase(s) != "ERROR" && TitleCase(s) != "unknown"
  {
    var t := TitleCase(s);
    assert IsTitled("Error") && IsTitled(UNKNOWN) by {
      assert StartsWord("Error", 0) && StartsWord(UNKNOWN, 0);
    }
    assert !IsTitled("ERROR") by {
      assert !StartsWord("ERROR", 1) && IsUpper("ERROR"[1]);
    }
    assert !IsTitled("unknown") by {
      assert StartsWord("unknown", 0) && IsLower("unknown"[0]);
    }
    TitleCaseIsWord(s, "Error");
    TitleCaseIsWord(s, UNKNOWN);
    assert t != "ERROR" && t != "unknown";
  }

  /** Normalising an already normalised cell changes nothing. */
  lemma NormalizeIdempotent(s: string)
    ensures Normalize(Normalize(s)) == Normalize(s)
  {
    var n := Normalize(s);
    NormalizeCollapsesErrors(s);
    if n == UNKNOWN {
      assert IsTitled(UNKNOWN) by { assert StartsWord(UNKNOWN, 0); }
      TitleCaseFixpoint(UNKNOWN);
    } else {
      TitleCaseIdempotent(s);
    }
  }
}
