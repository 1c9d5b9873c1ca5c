/** String literals of JSON (section 7 of RFC 8259): how the two encoders write a text, and how it is read back. */
module Literals {
  import opened Options
  import opened Text

  /** Go's encoding/json escapes five more characters than serde_json does; otherwise the two write alike. */
  datatype Encoder = GoEncoder | RustEncoder

  const ONLY_GO_ESCAPES: set<char> := {'&', '<', '>', '\U{2028}', '\U{2029}'}

  /** Four hexadecimal digits after a backslash and a u. */
  function Unicode(n: nat): string
    requires n < 0x1_0000
  {
    "\\u" + [HexDigit(n / 0x1000), HexDigit(n / 0x100 % 16), HexDigit(n / 16 % 16), HexDigit(n % 16)]
  }

  /** The letter of a two-character escape, if the character has one. */
  function ShortEscape(c: char): Option<char> {
    if c == '\"' || c == '\\' then Some(c)
    else if c == '\U{8}' then Some('b')
    else if c == '\t' then Some('t')
    else if c == '\n' then Some('n')
    else if c == '\U{C}' then Some('f')
    else if c == '\r' then Some('r')
    else None
  }

  function CharText(e: Encoder, c: char): string {
    if ShortEscape(c).Some? then ['\\', ShortEscape(c).value]
    else if c < ' ' || (e.GoEncoder? && c in ONLY_GO_ESCAPES) then Unicode(c as int)
    else [c]
  }

  // ---------- Reading ----------

  function ShortMeaning(c: char): Option<char> {
    match c
    case '\"' => Some('\"')
    case '\\' => Some('\\')
    case '/' => Some('/')
    case 'b' => Some('\U{8}')
    case 't' => Some('\t')
    case 'n' => Some('\n')
    case 'f' => Some('\U{C}')
    case 'r' => Some('\r')
    case _ => None
  }

  function HexNumber(s: string): Option<nat>
    requires |s| == 4
  {
    var a :- HexValue(s[0]);
    var b :- HexValue(s[1]);
    var c :- HexValue(s[2]);
    var d :- HexValue(s[3]);
    Some(0x1000 * a + 0x100 * b + 16 * c + d)
  }

  /** The first character of a literal and how many characters stand for it. Surrogate pairs are not written. */
  function FirstChar(t: string): (r: Option<(char, nat)>)
    requires t != ""
    ensures r.Some? ==> 0 < r.value.1 <= |t|
  {
    if t[0] != '\\' then if t[0] == '\"' || t[0] < ' ' then None else Some((t[0], 1))
    else if |t| < 2 then None
    else if t[1] != 'u' then
      var c :- ShortMeaning(t[1]);
      Some((c, 2))
    else if |t| < 6 then None
    else
      var n :- HexNumber(t[2..6]);
      if 0xD800 <= n < 0xE000 then None else Some((n as char, 6))
  }

  function ReadLiteral(t: string): Option<string> {
    if t == "" then Some("")
    else
      var (c, n) :- FirstChar(t);
      var rest :- ReadLiteral(t[n..]);
      Some([c] + rest)
  }

  /** What may stand between the quotes. */
  type Literal = t: string | ReadLiteral(t).Some? witness ""

  // ---------- Writing ----------

  lemma UnicodeReads(n: nat)
    requires n < 0x1_0000
    ensures |Unicode(n)| == 6 && HexNumber(Unicode(n)[2..6]) == Some(n)
  {
    hide HexDigit, HexValue;
    HexDigitValue(n / 0x1000);
    HexDigitValue(n / 0x100 % 16);
    HexDigitValue(n / 16 % 16);
    HexDigitValue(n % 16);
    FourDigits(n);
  }

  lemma FourDigits(n: nat)
    ensures 0x1000 * (n / 0x1000) + 0x100 * (n / 0x100 % 16) + 16 * (n / 16 % 16) + n % 16 == n
  {
    assert n / 0x100 / 16 == n / 0x1000 && n / 16 / 16 == n / 0x100;
  }

  /** A written character is read back, whatever follows. */
  lemma CharReads(e: Encoder, c: char, rest: string)
    ensures FirstChar(CharText(e, c) + rest) == Some((c, |CharText(e, c)|))
  {
    var t := CharText(e, c) + rest;
    if ShortEscape(c).None? && |CharText(e, c)| != 1 {
      UnicodeReads(c as int);
      assert t[2..6] == Unicode(c as int)[2..6];
    }
  }

  /** A text as its encoder writes it, which reads back as the text. */
  function TextOf(e: Encoder, s: string): (t: Literal)
    ensures ReadLiteral(t) == Some(s)
  {
    if s == "" then ""
    else
      var rest := TextOf(e, s[1..]);
      CharReads(e, s[0], rest);
      assert (CharText(e, s[0]) + rest)[|CharText(e, s[0])|..] == rest;
      assert [s[0]] + s[1..] == s;
      CharText(e, s[0]) + rest
  }

  /** Whichever encoders wrote them, equal literals stand for equal texts. */
  lemma TextsInjective(e: Encoder, s: string, e': Encoder, s': string)
    requires TextOf(e, s) == TextOf(e', s')
    ensures s == s'
  {
    assert Some(s) == ReadLiteral(TextOf(e, s)) == Some(s');
  }

  lemma TextStep(e: Encoder, s: string)
    requires s != ""
    ensures TextOf(e, s) == CharText(e, s[0]) + TextOf(e, s[1..])
  {
  }

  lemma NoText()
    ensures forall e :: TextOf(e, "") == ""
  {
  }

  /** A character without a meaning of its own. */
  predicate Ordinary(c: char) {
    c >= ' ' && c != '\"' && c != '\\' && c !in ONLY_GO_ESCAPES
  }

  lemma OrdinaryText(e: Encoder, c: char)
    requires Ordinary(c)
    ensures CharText(e, c) == [c]
  {
  }

  /** Ordinary characters are written as they are. */
  lemma {:induction false} WrittenAsIs(e: Encoder, s: string)
    requires forall c <- s :: Ordinary(c)
    ensures TextOf(e, s) == s
  {
    hide TextOf, CharText, ReadLiteral, Ordinary;
    if s == "" {
      NoText();
    } else {
      assert s[0] in s && forall c <- s[1..] :: c in s;
      WrittenAsIs(e, s[1..]);
      TextStep(e, s);
      OrdinaryText(e, s[0]);
      assert s == [s[0]] + s[1..];
    }
  }

  /** How the others are spelled: two characters, or the code in hexadecimal. */
  lemma ShortEscapesSpelled(e: Encoder)
    ensures CharText(e, '\"') == "\\\"" && CharText(e, '\\') == "\\\\"
    ensures CharText(e, '\n') == "\\n" && CharText(e, '\r') == "\\r" && CharText(e, '\t') == "\\t"
    ensures CharText(e, '\U{8}') == "\\b" && CharText(e, '\U{C}') == "\\f"
  {
  }

  lemma UnicodeSpelled(e: Encoder)
    ensures CharText(e, '\U{1F}') == "\\u001f"
    ensures CharText(GoEncoder, '&') == "\\u0026" && CharText(GoEncoder, '<') == "\\u003c"
    ensures CharText(GoEncoder, '>') == "\\u003e" && CharText(GoEncoder, '\U{2028}') == "\\u2028"
    ensures CharText(GoEncoder, '\U{2029}') == "\\u2029"
  {
    hide Unicode;
    Digits(0x1F, 0, 0, 1, 15);
    Digits(0x26, 0, 0, 2, 6);
    Digits(0x3C, 0, 0, 3, 12);
    Digits(0x3E, 0, 0, 3, 14);
    Digits(0x2028, 2, 0, 2, 8);
    Digits(0x2029, 2, 0, 2, 9);
  }

  lemma Digits(n: nat, a: nat, b: nat, c: nat, d: nat)
    requires a < 16 && b < 16 && c < 16 && d < 16 && n == 0x1000 * a + 0x100 * b + 0x10 * c + d
    ensures Unicode(n) == "\\u" + [HexDigit(a), HexDigit(b), HexDigit(c), HexDigit(d)]
  {
    hide HexDigit;
    assert n / 0x1000 == a && n / 0x100 == 0x10 * a + b && n / 16 == 0x100 * a + 0x10 * b + c;
    assert n / 0x100 % 16 == b && n / 16 % 16 == c && n % 16 == d;
  }

  predicate PlainText(s: string) {
    forall c <- s :: c !in ONLY_GO_ESCAPES
  }

  lemma SameChar(c: char)
    ensures var go, rust := CharText(GoEncoder, c), CharText(RustEncoder, c);
            go != "" && if c in ONLY_GO_ESCAPES then go[0] == '\\' && rust == [c] != ['\\'] else go == rust
  {
  }

  /** The two encoders write a text alike exactly when it has none of the five characters. */
  lemma {:induction false} SameText(s: string)
    ensures TextOf(GoEncoder, s) == TextOf(RustEncoder, s) <==> PlainText(s)
  {
    hide TextOf, CharText, ReadLiteral;
    if s == "" {
      NoText();
    } else {
      var go, rust := TextOf(GoEncoder, s), TextOf(RustEncoder, s);
      SameText(s[1..]);
      TextStep(GoEncoder, s);
      TextStep(RustEncoder, s);
      SameChar(s[0]);
      assert s == [s[0]] + s[1..];
      if s[0] in ONLY_GO_ESCAPES {
        assert go[0] == CharText(GoEncoder, s[0])[0] && rust[0] == s[0];
      } else {
        var n := |CharText(GoEncoder, s[0])|;
        assert go[n..] == TextOf(GoEncoder, s[1..]) && rust[n..] == TextOf(RustEncoder, s[1..]);
      }
    }
  }
}
