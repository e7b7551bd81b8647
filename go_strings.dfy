/** The Go standard-library string helpers the programs call, written out:
    strings.TrimSpace, strings.Split with a one-character separator,
    strings.Contains, strconv.Itoa and strconv.Atoi (whose error is always
    ignored by the callers, so only the returned int is modelled). */
module GoStrings {
  import opened Decimal

  /** unicode.IsSpace: the ASCII spaces, NEL, NBSP and the Unicode space separators. */
  predicate IsSpace(c: char) {
    c == ' ' || c == '\t' || c == '\n' || c == '\r' || c as int == 0x0B || c as int == 0x0C
    || c as int == 0x85 || c as int == 0xA0 || c as int == 0x1680
    || (0x2000 <= c as int <= 0x200A) || c as int == 0x2028 || c as int == 0x2029
    || c as int == 0x202F || c as int == 0x205F || c as int == 0x3000
  }

  function TrimLeft(s: string): (r: string)
    ensures |r| <= |s| && r == s[|s| - |r|..]
    ensures r == [] || !IsSpace(r[0])
    ensures forall k :: 0 <= k < |s| - |r| ==> IsSpace(s[k])
  {
    if s != [] && IsSpace(s[0]) then TrimLeft(s[1..]) else s
  }

  function TrimRight(s: string): (r: string)
    ensures |r| <= |s| && r == s[..|r|]
    ensures r == [] || !IsSpace(r[|r| - 1])
    ensures forall k :: |r| <= k < |s| ==> IsSpace(s[k])
  {
    if s != [] && IsSpace(s[|s| - 1]) then TrimRight(s[..|s| - 1]) else s
  }

  /** strings.TrimSpace: s without its leading and trailing white space. */
  function TrimSpace(s: string): string {
    TrimRight(TrimLeft(s))
  }

  /** TrimSpace leaves neither end white, is empty exactly when s is all white
      space, and keeps only characters of s. */
  lemma TrimSpaceTrims(s: string)
    ensures var r := TrimSpace(s);
      && (r == [] || (!IsSpace(r[0]) && !IsSpace(r[|r| - 1])))
      && (r == [] <==> forall k :: 0 <= k < |s| ==> IsSpace(s[k]))
      && (forall c :: c in r ==> c in s)
  {
    var left := TrimLeft(s);
    var r := TrimRight(left);
    assert forall k :: 0 <= k < |r| ==> r[k] == s[|s| - |left| + k];
  }

  /** Trimming a string with no white space at all changes nothing. */
  lemma TrimSpaceNoSpace(s: string)
    requires forall i :: 0 <= i < |s| ==> !IsSpace(s[i])
    ensures TrimSpace(s) == s
  {
    assert TrimLeft(s) == s;
    assert TrimRight(s) == s;
  }

  /** strings.Split(s, string(sep)): the pieces of s between occurrences of sep;
      one piece (s itself) when sep does not occur. */
  function Split(s: string, sep: char): (parts: seq<string>)
    ensures |parts| >= 1
    ensures forall i :: 0 <= i < |parts| ==> sep !in parts[i]
  {
    if s == [] then [""]
    else
      var rest := Split(s[1..], sep);
      if s[0] == sep then [""] + rest else [[s[0]] + rest[0]] + rest[1..]
  }

  /** strings.Join(parts, string(sep)), the inverse of Split. */
  function Join(parts: seq<string>, sep: char): string
    requires |parts| >= 1
  {
    if |parts| == 1 then parts[0] else parts[0] + [sep] + Join(parts[1..], sep)
  }

  lemma {:induction false} JoinSplit(s: string, sep: char)
    ensures Join(Split(s, sep), sep) == s
  {
    if s != [] {
      var rest := Split(s[1..], sep);
      JoinSplit(s[1..], sep);
      if s[0] == sep {
        assert Split(s, sep)[1..] == rest;
      } else {
        var parts := Split(s, sep);
        assert parts[1..] == rest[1..];
        if |rest| == 1 {
          assert Join(parts, sep) == [s[0]] + rest[0];
        } else {
          assert Join(parts, sep) == [s[0]] + (rest[0] + [sep] + Join(rest[1..], sep));
        }
      }
    }
  }

  /** A string without the separator splits into itself alone. */
  lemma {:induction false} SplitNoSep(s: string, sep: char)
    requires sep !in s
    ensures Split(s, sep) == [s]
  {
    if s != [] {
      SplitNoSep(s[1..], sep);
      assert [s[0]] + s[1..] == s;
    }
  }

  /** Splitting s + sep + t, with no separator in s, yields s and then the
      pieces of t. */
  lemma {:induction false} SplitJoined(s: string, t: string, sep: char)
    requires sep !in s
    ensures Split(s + [sep] + t, sep) == [s] + Split(t, sep)
  {
    var u := s + [sep] + t;
    if s == [] {
      assert u[0] == sep && u[1..] == t;
    } else {
      assert u[0] == s[0] && u[1..] == s[1..] + [sep] + t;
      SplitJoined(s[1..], t, sep);
      assert [s[0]] + s[1..] == s;
    }
  }

  /** strings.Contains(text, pattern). */
  predicate Contains(text: string, pattern: string) {
    exists k | 0 <= k <= |text| - |pattern| :: OccursAt(text, pattern, k)
  }

  predicate OccursAt(text: string, pattern: string, k: nat) {
    k + |pattern| <= |text| && text[k..k + |pattern|] == pattern
  }

  /** strconv.Itoa. */
  function Itoa(n: int): (s: string)
    ensures |s| >= 1
  {
    if n < 0 then "-" + Digits(-n) else Digits(n)
  }

  /** strconv.Atoi for inputs shorter than 19 bytes: an optional sign followed
      by at least one decimal digit; anything else is a syntax error, for
      which Atoi returns 0. */
  function Atoi(s: string): (n: int)
    ensures '-' !in s ==> n >= 0
  {
    if s == [] then 0
    else
      var body := if s[0] == '-' || s[0] == '+' then s[1..] else s;
      if body == [] || !AllDigits(body) then 0
      else if s[0] == '-' then 0 - Value(body) as int
      else Value(body)
  }

  /** Atoi reads back what Itoa writes. */
  lemma AtoiItoa(n: int)
    ensures Atoi(Itoa(n)) == n
  {
    var s := Itoa(n);
    if n < 0 {
      var d := Digits(-n);
      assert s[0] == '-' && s[1..] == d;
      ValueOfDigits(-n);
      assert Atoi(s) == 0 - Value(d) as int;
    } else {
      var d := Digits(n);
      assert s == d && IsDigit(s[0]);
      ValueOfDigits(n);
      assert Atoi(s) == Value(d);
    }
  }
}
