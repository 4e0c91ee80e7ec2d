/**
 The text layer shared by the NearMAP tracer and its log analyser: decimal
 printing, the number parser of the analyser, and the splitting of a log into
 lines and of a line into fields.
 */
module Text {
  import opened Wrappers

  // ---- Decimal numbers

  function Digit(d: nat): char
    requires d < 10
  {
    ('0' as int + d) as char
  }

  predicate IsDigit(c: char) {
    '0' <= c <= '9'
  }

  predicate AllDigits(s: string) {
    forall i :: 0 <= i < |s| ==> IsDigit(s[i])
  }

  function Decimal(n: nat): string {
    if n < 10 then [Digit(n)] else Decimal(n / 10) + [Digit(n % 10)]
  }

  function DigitsValue(s: string): nat
    requires AllDigits(s)
  {
    if s == [] then 0 else DigitsValue(Init(s)) * 10 + (Last(s) as int - '0' as int)
  }

  /** Parsing of an unsigned 64-bit number: an optional plus sign, at least one
      digit, and no overflow. */
  function ParseU64(s: string): Option<nat> {
    var digits := if |s| > 1 && s[0] == '+' then s[1..] else s;
    if digits == "" || !AllDigits(digits) || DigitsValue(digits) >= TWO64 then None
    else Some(DigitsValue(digits))
  }

  lemma {:induction false} DecimalDigits(n: nat)
    ensures |Decimal(n)| > 0 && AllDigits(Decimal(n)) && DigitsValue(Decimal(n)) == n
  {
    if n >= 10 {
      DecimalDigits(n / 10);
      assert Init(Decimal(n)) == Decimal(n / 10);
    } else {
      assert Init(Decimal(n)) == [];
    }
  }

  /** A number is printed as its digits, the most significant first, without zeros in
      front. */
  lemma DecimalByDigits(n: nat, d: nat)
    requires d < 10
    ensures Decimal(d) == ["0123456789"[d]]
    ensures n > 0 ==> Decimal(10 * n + d) == Decimal(n) + ["0123456789"[d]]
  {
    assert Digit(d) == "0123456789"[d];
    assert (10 * n + d) / 10 == n && (10 * n + d) % 10 == d;
  }

  lemma DecimalRoundTrip(n: nat)
    requires n < TWO64
    ensures ParseU64(Decimal(n)) == Some(n)
  {
    DecimalDigits(n);
    assert IsDigit(Decimal(n)[0]);
  }

  // ---- Fields

  function IndexOf(s: string, c: char): (i: nat)
    ensures i <= |s| && c !in s[..i]
    ensures i < |s| ==> s[i] == c
    ensures c in s <==> i < |s|
  {
    if s == [] || s[0] == c then 0
    else
      assert s == [s[0]] + s[1..];
      1 + IndexOf(s[1..], c)
  }

  lemma {:induction false} IndexOfIs(a: string, c: char, b: string)
    requires c !in a
    ensures IndexOf(a + [c] + b, c) == |a|
  {
    var s := a + [c] + b;
    if a != [] {
      assert s[1..] == a[1..] + [c] + b;
      IndexOfIs(a[1..], c, b);
    }
  }

  function Split(s: string, sep: char): (r: seq<string>)
    ensures |r| > 0
    decreases |s|
  {
    var i := IndexOf(s, sep);
    if i == |s| then [s] else [s[..i]] + Split(s[i + 1..], sep)
  }

  lemma SplitHead(a: string, b: string, sep: char)
    requires sep !in a
    ensures Split(a + [sep] + b, sep) == [a] + Split(b, sep)
  {
    var s := a + [sep] + b;
    IndexOfIs(a, sep, b);
    assert s[..|a|] == a;
    assert s[|a| + 1..] == b;
  }

  /** A field, the semicolon after it, and the fields that follow. */
  function Field(s: string, rest: string): string {
    s + [';'] + rest
  }

  lemma SplitField(s: string, rest: string)
    requires ';' !in s
    ensures Split(Field(s, rest), ';') == [s] + Split(rest, ';')
  {
    SplitHead(s, rest, ';');
  }

  /** The first field of a text ends at its first semicolon. */
  lemma SplitFirst(s: string)
    ensures Split(s, ';')[0] == s[..IndexOf(s, ';')]
  {
  }

  lemma SplitPlain(s: string)
    requires ';' !in s
    ensures Split(s, ';') == [s]
  {
  }

  // ---- Lines

  /** Each record followed by a newline. */
  function Unlines(records: seq<string>): string {
    if records == [] then "" else Unlines(Init(records)) + Last(records) + "\n"
  }

  function StripCR(s: string): string {
    if s != [] && Last(s) == '\r' then Init(s) else s
  }

  /** A buffered reader's lines: the newline is dropped, and a carriage return
      before it; a last line without a newline is kept as it is. */
  function Lines(s: string): seq<string>
    decreases |s|
  {
    if s == "" then []
    else
      var i := IndexOf(s, '\n');
      if i == |s| then [s] else [StripCR(s[..i])] + Lines(s[i + 1..])
  }

  predicate CleanLine(s: string) {
    '\n' !in s && StripCR(s) == s
  }

  lemma LinesHead(a: string, b: string)
    requires '\n' !in a
    ensures Lines(a + "\n" + b) == [StripCR(a)] + Lines(b)
  {
    var s := a + "\n" + b;
    IndexOfIs(a, '\n', b);
    assert s[..|a|] == a;
    assert s[|a| + 1..] == b;
  }

  lemma ThreeParts(a: string, b: string, c: string, d: string)
    ensures (a + b) + c + d == a + (b + c + d)
  {
  }

  lemma {:induction false} UnlinesAppend(a: seq<string>, b: seq<string>)
    ensures Unlines(a + b) == Unlines(a) + Unlines(b)
  {
    if b == [] {
      assert a + b == a;
    } else {
      UnlinesAppend(a, Init(b));
      assert Init(a + b) == a + Init(b) && Last(a + b) == Last(b);
      ThreeParts(Unlines(a), Unlines(Init(b)), Last(b), "\n");
    }
  }

  lemma UnlinesSnoc(records: seq<string>, rest: string)
    requires |records| > 0
    ensures Unlines(records) + rest == Unlines(Init(records)) + (Last(records) + "\n" + rest)
  {
  }

  lemma SnocAppend<T>(s: seq<T>, t: seq<T>)
    requires |s| > 0
    ensures s + t == Init(s) + ([Last(s)] + t)
  {
  }

  lemma {:induction false} LinesUnlines(records: seq<string>, rest: string)
    requires forall i :: 0 <= i < |records| ==> CleanLine(records[i])
    ensures Lines(Unlines(records) + rest) == records + Lines(rest)
  {
    if records == [] {
      assert Unlines(records) + rest == rest;
    } else {
      var last, front := Last(records), Init(records);
      UnlinesSnoc(records, rest);
      forall i | 0 <= i < |front| ensures CleanLine(front[i]) {
        assert front[i] == records[i];
      }
      LinesUnlines(front, last + "\n" + rest);
      LinesHead(last, rest);
      SnocAppend(records, Lines(rest));
    }
  }
}
