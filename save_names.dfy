/**
 * Save-name validation (`findInvalidCharacters` and `legalFileName`): a name
 * may use letters, digits, space, underscore, period and hyphen, and may not
 * end with a period.
 */
module SaveNames {
  import opened Wrappers
  import Paths
  import Sequences

  /** The character class `[a-zA-Z0-9 _.-]`. */
  predicate IsAllowedChar(c: char) {
    ('a' <= c <= 'z') || ('A' <= c <= 'Z') || ('0' <= c <= '9') || c == ' ' || c == '_' || c == '.' || c == '-'
  }

  /** `\.$`: the name's last character is a period. */
  predicate EndsWithDot(s: string) {
    |s| > 0 && s[|s| - 1] == '.'
  }

  /** The match of the class at one character: the character itself when it is outside the class. */
  function Match(c: char): string {
    if IsAllowedChar(c) then [] else [c]
  }

  /** The matches of `[^a-zA-Z0-9 _.-]`, left to right, each occurrence kept. */
  function Disallowed(s: string): (r: string)
    ensures |r| <= |s|
  {
    if s == [] then [] else Match(s[0]) + Disallowed(s[1..])
  }

  /** Each disallowed character occurs among the matches as often as in the name; allowed ones never do. */
  lemma {:induction false} DisallowedCounts(s: string)
    ensures forall c :: multiset(Disallowed(s))[c] == if IsAllowedChar(c) then 0 else multiset(s)[c]
  {
    if s != [] {
      DisallowedCounts(s[1..]);
      assert s == [s[0]] + s[1..];
    }
  }

  /** Matching is left to right: the matches in `a + b` are those in `a`, then those in `b`. */
  lemma {:induction false} DisallowedConcat(a: string, b: string)
    ensures Disallowed(a + b) == Disallowed(a) + Disallowed(b)
  {
    if a == [] {
      assert a + b == b;
    } else {
      DisallowedConcat(a[1..], b);
      var m, x, y := Match(a[0]), Disallowed(a[1..]), Disallowed(b);
      assert Disallowed(a + b) == m + Disallowed(a[1..] + b) by {
        assert (a + b)[0] == a[0] && (a + b)[1..] == a[1..] + b;
      }
      Sequences.Rebracket(Disallowed(a + b), Disallowed(a), m, x, y);
    }
  }

  /**
   * `findInvalidCharacters(name)`: every match of `/[^a-zA-Z0-9 _.-]|\.$/g`.
   * A final period is allowed by the class, so it is matched only by the
   * second alternative and comes after all other matches.
   */
  function FindInvalidCharacters(name: string): (r: string)
    ensures r == [] <==> (forall i :: 0 <= i < |name| ==> IsAllowedChar(name[i])) && !EndsWithDot(name)
    ensures forall c :: multiset(r)[c] == (if IsAllowedChar(c) then 0 else multiset(name)[c]) + (if c == '.' && EndsWithDot(name) then 1 else 0)
  {
    DisallowedCounts(name);
    DisallowedEmptyIff(name);
    Disallowed(name) + (if EndsWithDot(name) then "." else "")
  }

  /** How many characters of `s` lie outside the class, counted position by position. */
  function OutsideCount(s: string): nat {
    if s == [] then 0 else (if IsAllowedChar(s[0]) then 0 else 1) + OutsideCount(s[1..])
  }

  /**
   * `findInvalidCharacters(name)` returns one match per character outside the
   * class, and one more when the name ends with a period.
   */
  lemma {:induction false} FindInvalidCharactersLength(name: string)
    ensures |FindInvalidCharacters(name)| == OutsideCount(name) + (if EndsWithDot(name) then 1 else 0)
  {
    DisallowedLength(name);
  }

  lemma {:induction false} DisallowedLength(s: string)
    ensures |Disallowed(s)| == OutsideCount(s)
  {
    if s != [] {
      DisallowedLength(s[1..]);
    }
  }

  /** There are no disallowed matches exactly when every character is allowed. */
  lemma DisallowedEmptyIff(s: string)
    ensures Disallowed(s) == [] <==> forall i :: 0 <= i < |s| ==> IsAllowedChar(s[i])
  {
    DisallowedCounts(s);
    var r := Disallowed(s);
    if r != [] {
      assert multiset(r)[r[0]] > 0;
      assert r[0] in s;
    } else {
      forall i | 0 <= i < |s|
        ensures IsAllowedChar(s[i])
      {
        assert multiset(s)[s[i]] > 0;
      }
    }
  }

  const ILLEGAL_PREFIX := "Illegal characters used: "

  /** `'c'` */
  function Quote(c: char): string {
    ['\'', c, '\'']
  }

  /** `chars.map((val) => `'${val}'`).join(",")` */
  function QuoteJoin(chars: string): (q: string)
    ensures q == "" <==> chars == []
    ensures chars != [] ==> |q| == 4 * |chars| - 1 && q[..3] == Quote(chars[0])
  {
    if chars == [] then ""
    else if |chars| == 1 then Quote(chars[0])
    else Quote(chars[0]) + "," + QuoteJoin(chars[1..])
  }

  /** The `i`-th quoted entry of a joined list: four characters per entry, the last without its comma. */
  function Entry(q: string, i: nat): string
    requires 4 * i + 3 <= |q|
  {
    q[4 * i .. 4 * i + 3]
  }

  function Separator(q: string, i: nat): char
    requires 4 * i + 3 < |q|
  {
    q[4 * i + 3]
  }

  /** The joined list holds each character quoted, in order, separated by commas. */
  lemma {:induction false} QuoteJoinLayout(chars: string)
    requires chars != []
    ensures |QuoteJoin(chars)| == 4 * |chars| - 1
    ensures forall i :: 0 <= i < |chars| ==> Entry(QuoteJoin(chars), i) == Quote(chars[i])
    ensures forall i :: 0 <= i < |chars| - 1 ==> Separator(QuoteJoin(chars), i) == ','
  {
    var q := QuoteJoin(chars);
    if |chars| > 1 {
      var rest := chars[1..];
      var tail := QuoteJoin(rest);
      QuoteJoinLayout(rest);
      assert q == Quote(chars[0]) + "," + tail;
      forall i | 0 <= i < |chars|
        ensures Entry(q, i) == Quote(chars[i])
      {
        if i > 0 {
          assert Entry(q, i) == Entry(tail, i - 1);
        }
      }
      forall i | 0 <= i < |chars| - 1
        ensures Separator(q, i) == ','
      {
        if i > 0 {
          assert Separator(q, i) == Separator(tail, i - 1);
        }
      }
    }
  }

  /**
   * `legalFileName`: the name itself when it has no invalid characters, and
   * otherwise the error listing each of them quoted and comma-separated.
   */
  function LegalFileName(value: string): (r: Result<string, string>)
    ensures r.Success? <==> FindInvalidCharacters(value) == []
    ensures r.Success? ==> r.value == value
    ensures r.Failure? ==> ILLEGAL_PREFIX <= r.error
  {
    var illegal := FindInvalidCharacters(value);
    if |illegal| > 0 then Failure(ILLEGAL_PREFIX + QuoteJoin(illegal)) else Success(value)
  }

  /** The rejection message names every invalid character, in order, each quoted, separated by commas. */
  lemma RejectionListsEveryMatch(value: string)
    requires LegalFileName(value).Failure?
    ensures var chars := FindInvalidCharacters(value);
            var q := LegalFileName(value).error[|ILLEGAL_PREFIX|..];
            && |q| == 4 * |chars| - 1
            && (forall i :: 0 <= i < |chars| ==> Entry(q, i) == Quote(chars[i]))
            && (forall i :: 0 <= i < |chars| - 1 ==> Separator(q, i) == ',')
  {
    var chars := FindInvalidCharacters(value);
    QuoteJoinLayout(chars);
    assert LegalFileName(value).error[|ILLEGAL_PREFIX|..] == QuoteJoin(chars);
  }

  /** The empty name has no invalid characters, so it is accepted. */
  lemma EmptyNameAccepted()
    ensures LegalFileName("") == Success("")
  {
  }

  /**
   * A save name that, in addition, is not empty; the metadata schema requires
   * a non-empty name. An accepted name is a single path segment: non-empty,
   * without '/', and neither "." nor "..".
   */
  function LegalSaveName(value: string): (r: Result<string, string>)
    ensures r.Success? <==> value != "" && LegalFileName(value).Success?
    ensures r.Success? ==> r.value == value && Paths.IsName(value)
  {
    if value == "" then Failure("Save name must not be empty") else LegalFileName(value)
  }
}
