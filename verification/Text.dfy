/** The failure types shared by the other modules. */
module Options {
  datatype Option<+T> = None | Some(value: T) {
    predicate IsFailure() {
      None?
    }

    function PropagateFailure<U>(): Option<U>
      requires None?
    {
      None
    }

    function Extract(): T
      requires Some?
    {
      value
    }
  }

  datatype Result<+T> = Ok(value: T) | Err(error: string)
}

/**
 String handling the way the Go and Rust standard libraries do it, as far as the system relies on it:
 trimming, prefixes, splitting on one character, decimal integers, and the order used for sorting.
 */
module Text {
  import opened Options

  /** The White_Space property, on which Go's unicode.IsSpace and Rust's char::is_whitespace agree. */
  predicate IsSpace(c: char) {
    || '\t' <= c <= '\r' || c == ' ' || c == '\U{85}' || c == '\U{A0}' || c == '\U{1680}'
    || '\U{2000}' <= c <= '\U{200A}' || c == '\U{2028}' || c == '\U{2029}' || c == '\U{202F}'
    || c == '\U{205F}' || c == '\U{3000}'
  }

  function TrimLeft(s: string): string {
    if s != "" && IsSpace(s[0]) then TrimLeft(s[1..]) else s
  }

  function TrimRight(s: string): string {
    if s != "" && IsSpace(s[|s| - 1]) then TrimRight(s[..|s| - 1]) else s
  }

  function Trim(s: string): string {
    TrimRight(TrimLeft(s))
  }

  function TrimPrefix(s: string, prefix: string): string {
    if prefix <= s then s[|prefix|..] else s
  }

  function TrimSuffix(s: string, suffix: string): string {
    if |suffix| <= |s| && s[|s| - |suffix|..] == suffix then s[..|s| - |suffix|] else s
  }

  predicate Blanks(s: string) {
    forall c <- s :: c == ' ' || c == '\t' || c == '\n' || c == '\r'
  }

  predicate Visible(c: char) {
    '!' <= c <= '~'
  }

  /** Trimming takes away the blanks around a text and nothing of the text. */
  lemma TrimStrips(before: string, s: string, after: string)
    requires Blanks(before) && Blanks(after) && (s != "" ==> Visible(s[0]) && Visible(s[|s| - 1]))
    ensures Trim(before + s + after) == s
  {
    if s == "" {
      assert before + s + after == before + after;
      TrimLeftStrips(before + after, "");
      assert before + after + "" == before + after;
    } else {
      TrimLeftStrips(before, s + after);
      assert before + (s + after) == before + s + after;
      TrimRightStrips(s, after);
    }
  }

  lemma {:induction false} TrimLeftStrips(before: string, s: string)
    requires Blanks(before) && (s != "" ==> Visible(s[0]))
    ensures TrimLeft(before + s) == s
  {
    if before != "" {
      assert before[0] in before && (before + s)[0] == before[0];
      assert forall c <- before[1..] :: c in before;
      TrimLeftStrips(before[1..], s);
      assert (before + s)[1..] == before[1..] + s;
    }
  }

  lemma {:induction false} TrimRightStrips(s: string, after: string)
    requires Blanks(after) && (s != "" ==> Visible(s[|s| - 1]))
    ensures TrimRight(s + after) == s
  {
    if after != "" {
      var n := |after| - 1;
      assert after[n] in after && (s + after)[|s| + n] == after[n];
      assert forall c <- after[..n] :: c in after;
      TrimRightStrips(s, after[..n]);
      assert (s + after)[..|s| + n] == s + after[..n];
    }
  }

  /** Both libraries return at least one piece, even for the empty string. */
  function Split(s: string, sep: char): (parts: seq<string>)
    ensures |parts| > 0
  {
    if s == "" then [""]
    else
      var rest := Split(s[1..], sep);
      if s[0] == sep then [""] + rest else [[s[0]] + rest[0]] + rest[1..]
  }

  lemma {:induction false} SplitWhole(s: string, sep: char)
    requires sep !in s
    ensures Split(s, sep) == [s]
  {
    if s != "" {
      SplitWhole(s[1..], sep);
      assert s == [s[0]] + s[1..];
    }
  }

  lemma {:induction false} SplitFirst(head: string, sep: char, tail: string)
    requires sep !in head
    ensures Split(head + [sep] + tail, sep) == [head] + Split(tail, sep)
  {
    var s := head + [sep] + tail;
    if head == "" {
      assert s[1..] == tail;
    } else {
      SplitFirst(head[1..], sep, tail);
      assert s[1..] == head[1..] + [sep] + tail;
      assert head == [head[0]] + head[1..];
    }
  }

  lemma {:induction false} SplitPieces(s: string, sep: char)
    ensures |Split(s, sep)| == 1 ==> sep !in s && Split(s, sep) == [s]
    ensures |Split(s, sep)| == 2 ==>
      var parts := Split(s, sep);
      s == parts[0] + [sep] + parts[1] && sep !in parts[0] && sep !in parts[1]
  {
    if s != "" {
      SplitPieces(s[1..], sep);
      assert s == [s[0]] + s[1..];
    }
  }

  /** The index of the first occurrence, or the length of the string when there is none. */
  function Find(s: string, c: char): (i: nat)
    ensures i <= |s| && c !in s[..i]
    ensures i < |s| ==> s[i] == c
  {
    if s == "" || s[0] == c then 0
    else
      var i := 1 + Find(s[1..], c);
      assert s[..i] == [s[0]] + s[1..][..i - 1];
      i
  }

  lemma FindFirst(head: string, c: char, tail: string)
    requires c !in head
    ensures Find(head + [c] + tail, c) == |head|
  {
    var s := head + [c] + tail;
    assert s[|head|] == c;
    assert s[..|head|] == head;
  }

  // ---------- Decimal integers ----------

  predicate IsDigit(c: char) {
    '0' <= c <= '9'
  }

  function Digit(n: nat): char
    requires n < 10
  {
    "0123456789"[n]
  }

  function Decimal(n: nat): string {
    if n < 10 then [Digit(n)] else Decimal(n / 10) + [Digit(n % 10)]
  }

  function Zeros(n: nat): string {
    if n == 0 then "" else Zeros(n - 1) + "0"
  }

  /** Rust's "{:0w}": zeros between the sign and the digits until the text is w characters wide. */
  function Padded(n: int, width: nat): string {
    var sign := if n < 0 then "-" else "";
    var digits := Decimal(if n < 0 then -n else n);
    sign + Zeros(if |sign| + |digits| < width then width - |sign| - |digits| else 0) + digits
  }

  function ParseDigits(s: string): Option<nat> {
    if s == "" || !IsDigit(s[|s| - 1]) then None
    else
      var last := s[|s| - 1] as int - '0' as int;
      if |s| == 1 then Some(last)
      else match ParseDigits(s[..|s| - 1])
        case None => None
        case Some(n) => Some(10 * n + last)
  }

  const I64_MAX: int := 0x7fff_ffff_ffff_ffff

  /** Rust's str::parse::<i64>: one optional sign, then digits only, within range. */
  function ParseI64(s: string): Option<int> {
    var negative := "-" <= s;
    match ParseDigits(if negative || "+" <= s then s[1..] else s)
    case None => None
    case Some(n) =>
      var v: int := if negative then -(n as int) else n;
      if -I64_MAX - 1 <= v <= I64_MAX then Some(v) else None
  }

  predicate AllDigits(s: string) {
    forall c <- s :: IsDigit(c)
  }

  lemma DigitValue(n: nat)
    requires n < 10
    ensures IsDigit(Digit(n)) && Digit(n) as int - '0' as int == n
  {
  }

  lemma {:induction false} DecimalParses(n: nat)
    ensures AllDigits(Decimal(n)) && Decimal(n) != "" && ParseDigits(Decimal(n)) == Some(n)
  {
    if n < 10 {
      DigitValue(n);
    } else {
      DecimalParses(n / 10);
      DigitValue(n % 10);
      var s := Decimal(n);
      assert s[..|s| - 1] == Decimal(n / 10);
    }
  }

  lemma {:induction false} LeadingZeros(k: nat, digits: string)
    requires digits != "" && AllDigits(digits)
    ensures AllDigits(Zeros(k) + digits) && ParseDigits(Zeros(k) + digits) == ParseDigits(digits)
  {
    if k == 0 {
      assert Zeros(k) + digits == digits;
    } else {
      LeadingZero(digits);
      LeadingZeros(k - 1, "0" + digits);
      assert Zeros(k) + digits == Zeros(k - 1) + ("0" + digits);
    }
  }

  lemma {:induction false} LeadingZero(digits: string)
    requires digits != "" && AllDigits(digits)
    ensures AllDigits("0" + digits) && ParseDigits("0" + digits) == ParseDigits(digits)
  {
    var s, n := "0" + digits, |digits|;
    assert s[n] == digits[n - 1] && IsDigit(digits[n - 1]);
    if n == 1 {
      assert s[..1] == "0";
      assert ParseDigits("0") == Some(0);
    } else {
      var front := digits[..n - 1];
      LeadingZero(front);
      assert s[..n] == "0" + front;
    }
  }

  /** Printing with any padding and parsing back is the identity on non-negative i64 values. */
  lemma PaddedParses(n: nat, width: nat)
    requires n <= I64_MAX
    ensures AllDigits(Padded(n, width)) && Padded(n, width) != "" && ParseI64(Padded(n, width)) == Some(n)
  {
    DecimalParses(n);
    var k := if |Decimal(n)| < width then width - |Decimal(n)| else 0;
    LeadingZeros(k, Decimal(n));
    assert Padded(n, width) == Zeros(k) + Decimal(n);
    assert IsDigit(Padded(n, width)[0]);
  }

  /** Signs and range: a minus negates, a plus does not, and numbers beyond 64 bits are refused. */
  lemma SignsParse(n: nat)
    ensures ParseI64("-" + Decimal(n)) == if n <= I64_MAX + 1 then Some(-(n as int)) else None
    ensures ParseI64("+" + Decimal(n)) == ParseI64(Decimal(n)) == if n <= I64_MAX then Some(n) else None
  {
    DecimalParses(n);
    assert IsDigit(Decimal(n)[0]);
    assert ("-" + Decimal(n))[1..] == Decimal(n) && ("+" + Decimal(n))[1..] == Decimal(n);
  }

  // ---------- The order of Go's sort.Strings and SQLite's BINARY collation ----------

  predicate Leq(a: string, b: string) {
    a == "" || (b != "" && (a[0] < b[0] || (a[0] == b[0] && Leq(a[1..], b[1..]))))
  }

  predicate Less(a: string, b: string) {
    Leq(a, b) && a != b
  }

  /** After a common beginning the first difference decides, and a text comes before its continuations. */
  lemma {:induction false} FirstDifferenceDecides(a: string, b: string, k: nat)
    requires k <= |a| && k <= |b| && a[..k] == b[..k]
    requires k < |a| && k < |b| ==> a[k] != b[k]
    ensures Leq(a, b) <==> k == |a| || (k < |b| && a[k] < b[k])
  {
    if k > 0 {
      assert a[0] == a[..k][0] == b[..k][0] == b[0];
      assert a[1..][..k - 1] == a[..k][1..] && b[1..][..k - 1] == b[..k][1..];
      FirstDifferenceDecides(a[1..], b[1..], k - 1);
    }
  }

  lemma {:induction false} LeqTotal(a: string, b: string)
    ensures Leq(a, b) || Leq(b, a)
  {
    if a != "" && b != "" {
      LeqTotal(a[1..], b[1..]);
    }
  }

  lemma {:induction false} LeqAntisymmetric(a: string, b: string)
    requires Leq(a, b) && Leq(b, a)
    ensures a == b
  {
    if a != "" {
      LeqAntisymmetric(a[1..], b[1..]);
      assert a == [a[0]] + a[1..] && b == [b[0]] + b[1..];
    }
  }

  lemma {:induction false} LeqTransitive(a: string, b: string, c: string)
    requires Leq(a, b) && Leq(b, c)
    ensures Leq(a, c)
  {
    if a != "" && a[0] == b[0] == c[0] {
      LeqTransitive(a[1..], b[1..], c[1..]);
    }
  }

  predicate StrictlySorted(s: seq<string>) {
    forall i, j :: 0 <= i < j < |s| ==> Less(s[i], s[j])
  }

  function Elements(s: seq<string>): set<string> {
    set x <- s
  }

  lemma ElementsSnoc(s: seq<string>, x: string)
    ensures Elements(s + [x]) == Elements(s) + {x}
  {
  }

  /** A strictly sorted list is determined by its elements, so any sorting algorithm gives the same one. */
  lemma {:induction false} SortedUnique(a: seq<string>, b: seq<string>)
    requires StrictlySorted(a) && StrictlySorted(b) && Elements(a) == Elements(b)
    ensures a == b
  {
    if a == [] {
      if b != [] {
        FirstElement(b);
      }
    } else {
      SameFirst(a, b);
      TailElements(a);
      TailElements(b);
      SortedUnique(a[1..], b[1..]);
      assert a == [a[0]] + a[1..] && b == [b[0]] + b[1..];
    }
  }

  lemma FirstElement(s: seq<string>)
    requires s != []
    ensures s[0] in Elements(s)
  {
  }

  lemma SameFirst(a: seq<string>, b: seq<string>)
    requires StrictlySorted(a) && StrictlySorted(b) && Elements(a) == Elements(b) && a != []
    ensures b != [] && a[0] == b[0]
  {
    assert a[0] in Elements(b);
    var i :| 0 <= i < |b| && b[i] == a[0];
    assert b[0] in Elements(a);
    var j :| 0 <= j < |a| && a[j] == b[0];
    if i != 0 && j != 0 {
      assert Less(b[0], b[i]) && Less(a[0], a[j]);
      LeqAntisymmetric(a[0], b[0]);
    }
  }

  lemma TailElements(a: seq<string>)
    requires a != [] && StrictlySorted(a)
    ensures Elements(a[1..]) == Elements(a) - {a[0]} && StrictlySorted(a[1..])
  {
  }

  predicate IsLeast(x: string, s: set<string>) {
    x in s && forall y <- s :: Leq(x, y)
  }

  lemma {:induction false} LeastExists(s: set<string>)
    requires s != {}
    ensures exists x :: IsLeast(x, s)
  {
    var x :| x in s;
    var rest := s - {x};
    LeqTotal(x, x);
    assert forall y <- s :: y == x || y in rest;
    if rest == {} {
      assert IsLeast(x, s);
    } else {
      LeastExists(rest);
      var m :| IsLeast(m, rest);
      LeqTotal(x, m);
      if Leq(x, m) {
        forall y <- rest ensures Leq(x, y) { LeqTransitive(x, m, y); }
        assert IsLeast(x, s);
      } else {
        assert IsLeast(m, s);
      }
    }
  }

  function Least(s: set<string>): (x: string)
    requires s != {}
    ensures IsLeast(x, s)
  {
    LeastExists(s);
    assert forall x, y :: IsLeast(x, s) && IsLeast(y, s) ==> x == y by {
      forall x, y | IsLeast(x, s) && IsLeast(y, s) ensures x == y { LeqAntisymmetric(x, y); }
    }
    var x :| IsLeast(x, s);
    x
  }

  /** The rows of a query ordered by a key, as the list of its key values. */
  function Ascending(s: set<string>): (r: seq<string>)
    ensures StrictlySorted(r) && Elements(r) == s
  {
    if s == {} then []
    else
      var x := Least(s);
      var rest := Ascending(s - {x});
      assert forall y <- rest :: y in Elements(rest);
      assert Elements([x] + rest) == {x} + Elements(rest);
      [x] + rest
  }

  // ---------- Hexadecimal digits ----------

  function HexDigit(n: nat): char
    requires n < 16
  {
    "0123456789abcdef"[n]
  }

  function HexValue(c: char): (v: Option<nat>)
    ensures v.Some? ==> v.value < 16
  {
    if '0' <= c <= '9' then Some(c as int - '0' as int)
    else if 'a' <= c <= 'f' then Some(c as int - 'a' as int + 10)
    else if 'A' <= c <= 'F' then Some(c as int - 'A' as int + 10)
    else None
  }

  lemma HexDigitValue(n: nat)
    requires n < 16
    ensures HexValue(HexDigit(n)) == Some(n)
  {
  }
}
