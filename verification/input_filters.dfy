/** The keystroke sanitisers of the submit and resubmit forms: the student
    name filter and capitaliser, the student ID formatter, the GCash number
    filter and the raw amount filter. */
module InputFilters {
  import opened Common

  /** `[0-9]`: the ASCII digits, the only characters `[^0-9]` and `\D` keep. */
  predicate IsDigit(c: char) { '0' <= c <= '9' }

  /** `[A-Za-z]`. */
  predicate IsAsciiLetter(c: char) { 'A' <= c <= 'Z' || 'a' <= c <= 'z' }

  /** The characters the `\s` class of an ECMAScript regular expression
      matches: the white-space and line-terminator code points. */
  predicate IsRegexSpace(c: char)
  {
    c == ' ' || c == '\t' || c == '\n' || c == '\U{000B}' || c == '\U{000C}' || c == '\r'
    || c == '\U{00A0}' || c == '\U{1680}' || ('\U{2000}' <= c <= '\U{200A}')
    || c == '\U{2028}' || c == '\U{2029}' || c == '\U{202F}' || c == '\U{205F}'
    || c == '\U{3000}' || c == '\U{FEFF}'
  }

  predicate NotHyphen(c: char) { c != '-' }

  /** The input with every non-digit removed (`replace(/[^0-9]/g, '')`,
      equivalently `replace(/\D/g, '')`). */
  function DigitsOnly(s: string): (r: string)
    ensures forall i :: 0 <= i < |r| ==> IsDigit(r[i])
    ensures (forall i :: 0 <= i < |s| ==> IsDigit(s[i])) ==> r == s
  {
    if forall i :: 0 <= i < |s| ==> IsDigit(s[i]) then
      FilterKeepsAll(IsDigit, s);
      Filter(IsDigit, s)
    else
      Filter(IsDigit, s)
  }

  /** Removing non-digits piecewise is removing them from the whole: the
      kept digits stay in their original order. */
  lemma DigitsOnlyConcat(a: string, b: string)
    ensures DigitsOnly(a + b) == DigitsOnly(a) + DigitsOnly(b)
  {
    FilterConcat(IsDigit, a, b);
  }

  /** The string with every `-` removed. */
  function RemoveHyphens(s: string): (r: string)
    ensures forall i :: 0 <= i < |r| ==> r[i] != '-'
    ensures (forall i :: 0 <= i < |s| ==> s[i] != '-') ==> r == s
  {
    if forall i :: 0 <= i < |s| ==> s[i] != '-' then
      FilterKeepsAll(NotHyphen, s);
      Filter(NotHyphen, s)
    else
      Filter(NotHyphen, s)
  }

  // ---------------------------------------------------------------------
  // Student ID

  /** Digits before the inserted hyphen. */
  const StudentIdGroupLength := 6
  /** The end index the formatter passes to `slice` for the digits after the hyphen. */
  const StudentIdSliceEnd := 10000

  /** `handleStudentIDChange`: keeps the digits; once there are more than six
      of them, a single hyphen goes after the sixth. The part after the hyphen
      is `slice(6, 10000)`, so digits past the ten-thousandth are dropped. */
  function FormatStudentId(input: string): (r: string)
    ensures |DigitsOnly(input)| <= StudentIdGroupLength ==> r == DigitsOnly(input)
    ensures |DigitsOnly(input)| > StudentIdGroupLength ==>
              |r| == Min(|DigitsOnly(input)|, StudentIdSliceEnd) + 1 && r[StudentIdGroupLength] == '-'
    ensures forall i :: 0 <= i < |r| && i != StudentIdGroupLength ==> IsDigit(r[i])
    ensures RemoveHyphens(r) == DigitsOnly(input)[..Min(|DigitsOnly(input)|, StudentIdSliceEnd)]
  {
    var d := DigitsOnly(input);
    if |d| > StudentIdGroupLength then
      var m := Min(|d|, StudentIdSliceEnd);
      var r := d[..StudentIdGroupLength] + "-" + d[StudentIdGroupLength..m];
      HyphenatedDigits(d, m);
      r
    else
      assert forall i :: 0 <= i < |d| ==> d[i] != '-';
      d
  }

  /** Removing the inserted hyphen from `d[..6] + "-" + d[6..m]` gives back
      `d[..m]`, and also taking the digits of it does. */
  lemma HyphenatedDigits(d: string, m: nat)
    requires StudentIdGroupLength <= m <= |d|
    requires forall i :: 0 <= i < |d| ==> IsDigit(d[i])
    ensures RemoveHyphens(d[..StudentIdGroupLength] + "-" + d[StudentIdGroupLength..m]) == d[..m]
    ensures DigitsOnly(d[..StudentIdGroupLength] + "-" + d[StudentIdGroupLength..m]) == d[..m]
  {
    var a, b := d[..StudentIdGroupLength], d[StudentIdGroupLength..m];
    assert forall i :: 0 <= i < |a| ==> IsDigit(a[i]);
    assert forall i :: 0 <= i < |b| ==> IsDigit(b[i]);
    FilterKeepsAll(NotHyphen, a);
    FilterKeepsAll(NotHyphen, b);
    FilterKeepsAll(IsDigit, a);
    FilterKeepsAll(IsDigit, b);
    assert Filter(NotHyphen, "-") == [];
    assert Filter(IsDigit, "-") == [];
    FilterConcat(NotHyphen, a + "-", b);
    FilterConcat(NotHyphen, a, "-");
    FilterConcat(IsDigit, a + "-", b);
    FilterConcat(IsDigit, a, "-");
    assert a + b == d[..m];
  }

  /** Feeding the displayed ID back through the formatter leaves it as it is. */
  lemma FormatStudentIdIdempotent(input: string)
    ensures FormatStudentId(FormatStudentId(input)) == FormatStudentId(input)
  {
    var d := DigitsOnly(input);
    var r := FormatStudentId(input);
    if |d| > StudentIdGroupLength {
      var m := Min(|d|, StudentIdSliceEnd);
      HyphenatedDigits(d, m);
      assert DigitsOnly(r) == d[..m];
      assert d[..m][..StudentIdGroupLength] == d[..StudentIdGroupLength];
      assert d[..m][StudentIdGroupLength..m] == d[StudentIdGroupLength..m];
    }
  }

  /** Seven digits gain a hyphen after the sixth. */
  lemma FormatStudentIdSevenDigits()
    ensures FormatStudentId("1234567") == "123456-7"
  {
    assert DigitsOnly("1234567") == "1234567";
    assert "1234567"[..6] == "123456";
    assert "1234567"[6..7] == "7";
  }

  // ---------------------------------------------------------------------
  // GCash number and amount

  /** A GCash number has at most eleven digits. */
  const GcashMaxDigits := 11

  /** `handleGcashNumber`: the digits of the input, cut to the first eleven. */
  function SanitizeGcash(input: string): (r: string)
    ensures |r| == Min(|DigitsOnly(input)|, GcashMaxDigits)
    ensures forall i :: 0 <= i < |r| ==> IsDigit(r[i])
    ensures r <= DigitsOnly(input)
  {
    var d := DigitsOnly(input);
    d[..Min(|d|, GcashMaxDigits)]
  }

  /** A value that already is at most eleven digits passes unchanged, so the
      filter is idempotent. */
  lemma SanitizeGcashFixesValid(s: string)
    ensures (forall i :: 0 <= i < |s| ==> IsDigit(s[i])) && |s| <= GcashMaxDigits ==> SanitizeGcash(s) == s
    ensures SanitizeGcash(SanitizeGcash(s)) == SanitizeGcash(s)
  {
    var r := SanitizeGcash(s);
    assert DigitsOnly(r) == r;
  }

  // ---------------------------------------------------------------------
  // Student name

  /** `/^[A-Za-z\s]*$/`: only ASCII letters and white space. */
  predicate NameAccepted(s: string)
  {
    forall i :: 0 <= i < |s| ==> IsAsciiLetter(s[i]) || IsRegexSpace(s[i])
  }

  /** `toUpperCase` on the characters an accepted name can contain: lower-case
      ASCII letters become upper case and every other character stays. */
  function UpperAscii(c: char): (u: char)
    ensures 'a' <= c <= 'z' ==> 'A' <= u <= 'Z' && u as int == c as int - 32
    ensures !('a' <= c <= 'z') ==> u == c
  {
    if 'a' <= c <= 'z' then (c as int - 32) as char else c
  }

  /** `split(' ')`: the pieces between single spaces; an empty string is one empty piece. */
  function Split(s: string): (words: seq<string>)
    ensures |words| >= 1
  {
    if |s| == 0 then [""]
    else
      var rest := Split(s[1..]);
      if s[0] == ' ' then [""] + rest
      else [[s[0]] + rest[0]] + rest[1..]
  }

  /** `join(' ')`. */
  function Join(words: seq<string>): string
  {
    if |words| == 0 then ""
    else if |words| == 1 then words[0]
    else words[0] + " " + Join(words[1..])
  }

  /** `word.charAt(0).toUpperCase() + word.slice(1)`. */
  function CapitalizeWord(w: string): string
  {
    if |w| == 0 then "" else [UpperAscii(w[0])] + w[1..]
  }

  function MapCapitalize(words: seq<string>): (r: seq<string>)
    ensures |r| == |words|
  {
    if |words| == 0 then [] else [CapitalizeWord(words[0])] + MapCapitalize(words[1..])
  }

  /** Position `i` of `s` begins a space-separated word. */
  predicate StartsWord(s: string, i: int)
    requires 0 <= i < |s|
  {
    i == 0 || s[i - 1] == ' '
  }

  /** Character-by-character reading of the capitaliser: a character is
      upper-cased when it starts the string (and `atStart` holds) or follows a space. */
  function CapitalizeFrom(s: string, atStart: bool): string
  {
    if |s| == 0 then ""
    else [if atStart then UpperAscii(s[0]) else s[0]] + CapitalizeFrom(s[1..], s[0] == ' ')
  }

  lemma {:induction false} CapitalizeFromSpec(s: string, atStart: bool)
    ensures |CapitalizeFrom(s, atStart)| == |s|
    ensures forall i :: 0 <= i < |s| ==>
              CapitalizeFrom(s, atStart)[i] == (if (i == 0 && atStart) || (i > 0 && s[i - 1] == ' ') then UpperAscii(s[i]) else s[i])
  {
    if |s| > 0 {
      CapitalizeFromSpec(s[1..], s[0] == ' ');
      var r := CapitalizeFrom(s, atStart);
      forall i | 0 < i < |s|
        ensures r[i] == if s[i - 1] == ' ' then UpperAscii(s[i]) else s[i]
      {
        assert r[i] == CapitalizeFrom(s[1..], s[0] == ' ')[i - 1];
        assert s[1..][i - 1] == s[i];
        if i > 1 {
          assert s[1..][i - 2] == s[i - 1];
        }
      }
    }
  }

  lemma JoinConsChar(x: char, w: string, ws: seq<string>)
    ensures Join([[x] + w] + ws) == [x] + Join([w] + ws)
  {
    if |ws| > 0 {
      assert ([[x] + w] + ws)[1..] == ws;
      assert ([w] + ws)[1..] == ws;
    }
  }

  /** Split-map-join capitalises exactly as `CapitalizeFrom` describes; the
      second clause covers a first word that has been entered already. */
  lemma {:induction false} SplitMapJoin(s: string)
    ensures Join(MapCapitalize(Split(s))) == CapitalizeFrom(s, true)
    ensures Join([Split(s)[0]] + MapCapitalize(Split(s)[1..])) == CapitalizeFrom(s, false)
  {
    if |s| > 0 {
      var rest := Split(s[1..]);
      SplitMapJoin(s[1..]);
      if s[0] == ' ' {
        assert Split(s) == [""] + rest;
        assert ([""] + rest)[1..] == rest;
        assert MapCapitalize(Split(s)) == [""] + MapCapitalize(rest);
        assert ([""] + MapCapitalize(rest))[1..] == MapCapitalize(rest);
      } else {
        var c := s[0];
        assert Split(s) == [[c] + rest[0]] + rest[1..];
        assert rest == [rest[0]] + rest[1..];
        assert MapCapitalize(Split(s)) == [CapitalizeWord([c] + rest[0])] + MapCapitalize(rest[1..]);
        assert CapitalizeWord([c] + rest[0]) == [UpperAscii(c)] + rest[0];
        JoinConsChar(UpperAscii(c), rest[0], MapCapitalize(rest[1..]));
        JoinConsChar(c, rest[0], MapCapitalize(rest[1..]));
        assert MapCapitalize(rest) == [CapitalizeWord(rest[0])] + MapCapitalize(rest[1..]);
      }
    }
  }

  /** The capitaliser of `handleStudentNameChange`: split on single spaces,
      upper-case the first character of each piece, join with single spaces. */
  function Capitalize(s: string): (r: string)
    ensures |r| == |s|
    ensures forall i :: 0 <= i < |s| ==> r[i] == if StartsWord(s, i) then UpperAscii(s[i]) else s[i]
  {
    SplitMapJoin(s);
    CapitalizeFromSpec(s, true);
    Join(MapCapitalize(Split(s)))
  }

  /** Capitalising a second time changes nothing. */
  lemma CapitalizeIdempotent(s: string)
    ensures Capitalize(Capitalize(s)) == Capitalize(s)
  {
    var r := Capitalize(s);
    var r2 := Capitalize(r);
    forall i | 0 <= i < |r|
      ensures r2[i] == r[i]
    {
      if i > 0 {
        assert r[i - 1] == ' ' <==> s[i - 1] == ' ';
      }
    }
  }

  /** Capitalising keeps a name accepted. */
  lemma CapitalizeKeepsAccepted(s: string)
    requires NameAccepted(s)
    ensures NameAccepted(Capitalize(s))
  {
  }

  /** `handleStudentNameChange`: a rejected input leaves the stored value
      untouched; an accepted one is stored capitalised. */
  function HandleNameChange(stored: string, input: string): (r: string)
    ensures !NameAccepted(input) ==> r == stored
    ensures NameAccepted(input) ==> |r| == |input|
    ensures NameAccepted(input) ==>
              forall i :: 0 <= i < |input| ==> r[i] == (if StartsWord(input, i) then UpperAscii(input[i]) else input[i])
    ensures NameAccepted(stored) ==> NameAccepted(r)
  {
    if NameAccepted(input) then
      CapitalizeKeepsAccepted(input);
      Capitalize(input)
    else
      stored
  }

  /** What the stored name input always satisfies: it passes the filter and
      is already capitalised. The initial empty value satisfies it. */
  predicate StoredNameOk(s: string)
  {
    NameAccepted(s) && Capitalize(s) == s
  }

  /** Every keystroke keeps the stored name well formed, and feeding the
      displayed value back through the handler leaves it as it is. */
  lemma NameChangeKeepsStoredOk(stored: string, input: string)
    requires StoredNameOk(stored)
    ensures StoredNameOk(HandleNameChange(stored, input))
    ensures var r := HandleNameChange(stored, input); HandleNameChange(r, r) == r
  {
    if NameAccepted(input) {
      CapitalizeKeepsAccepted(input);
      CapitalizeIdempotent(input);
    }
  }

  /** A lower-case entry of a name becomes its capitalised form. */
  lemma CapitalizeExample()
    ensures HandleNameChange("", "juan dela cruz") == "Juan Dela Cruz"
  {
    CapitalizeLiteral("juan dela cruz", "Juan Dela Cruz");
  }

  lemma CapitalizeLiteral(s: string, t: string)
    requires s == "juan dela cruz" && t == "Juan Dela Cruz"
    ensures NameAccepted(s) && Capitalize(s) == t
  {
    var r := Capitalize(s);
    assert |r| == 14;
    assert r[0] == 'J';
  }
}
