/** The two persisted settings, the trade limit and the outlier threshold:
    how text read from an input box, from a prompt or from the key-value
    store becomes a number, and the `|| default` fallbacks applied to it.

    `parseInt` is modelled (white space, sign, a `0x` prefix, the longest
    digit run); `parseFloat` is not, and enters as its result, `None`
    standing for `NaN`. Values are stored as their decimal text. */
module Settings {

  import opened Wrappers
  import opened Text

  /** Trade limit used when none is stored or the text is not a number. */
  const DefaultTradeLimit: int := 1000

  /** Threshold used when none is stored or the text is not a number. */
  const FallbackThreshold: real := 2.0

  // ---------------------------------------------------------------------
  // parseInt

  /** The value of a letter or digit as a digit in radix up to 36; 36 for
      any other character. */
  function DigitValue(c: char): nat {
    if '0' <= c <= '9' then c as nat - '0' as nat
    else if 'a' <= c <= 'z' then c as nat - 'a' as nat + 10
    else if 'A' <= c <= 'Z' then c as nat - 'A' as nat + 10
    else 36
  }

  /** Length of the longest prefix of s made of digits of the radix. */
  function RunLength(s: string, radix: nat): (n: nat)
    ensures n <= |s|
    ensures forall i :: 0 <= i < n ==> DigitValue(s[i]) < radix
    ensures n == |s| || DigitValue(s[n]) >= radix
  {
    if s != [] && DigitValue(s[0]) < radix then 1 + RunLength(s[1..], radix) else 0
  }

  /** The number a string of digits denotes in the radix, most significant first. */
  function Value(ds: string, radix: nat): nat {
    if ds == [] then 0
    else Value(ds[..|ds| - 1], radix) * radix + DigitValue(ds[|ds| - 1])
  }

  predicate HasHexPrefix(u: string) {
    |u| >= 2 && u[0] == '0' && (u[1] == 'x' || u[1] == 'X')
  }

  /** The digits that follow the sign, in radix 10 or after `0x` in radix 16;
      None (`NaN`) when there is none. */
  function ParseMagnitude(u: string): Option<nat> {
    var radix := if HasHexPrefix(u) then 16 else 10;
    var body := if HasHexPrefix(u) then u[2..] else u;
    var n := RunLength(body, radix);
    if n == 0 then None else Some(Value(body[..n], radix))
  }

  /** `parseInt(s)`: None is `NaN`. After the leading white space, text
      that starts with neither a sign nor a digit is `NaN`, and only a
      minus sign gives a negative number. */
  function ParseInt(s: string): (r: Option<int>)
    ensures var t := TrimStart(s);
      t == [] || (t[0] != '-' && t[0] != '+' && DigitValue(t[0]) >= 10) ==> r == None
    ensures r.Some? ==> TrimStart(s) != [] && (r.value < 0 ==> TrimStart(s)[0] == '-')
  {
    var t := TrimStart(s);
    var negative := t != [] && t[0] == '-';
    var u := if t != [] && (t[0] == '-' || t[0] == '+') then t[1..] else t;
    match ParseMagnitude(u)
    case None => None
    case Some(m) => var v: int := if negative then -(m as int) else m; Some(v)
  }

  // ---------------------------------------------------------------------
  // Numbers as stored text (`String(n)`)

  function DigitChar(d: nat): (c: char)
    requires d < 10
    ensures IsDigit(c) && DigitValue(c) == d
  {
    ('0' as int + d) as char
  }

  function NatText(n: nat): (s: string)
    ensures |s| > 0
    ensures forall i :: 0 <= i < |s| ==> IsDigit(s[i])
  {
    if n < 10 then [DigitChar(n)] else NatText(n / 10) + [DigitChar(n % 10)]
  }

  /** The decimal text `String(n)` gives an integer. */
  function IntText(n: int): string {
    if n < 0 then "-" + NatText(-n) else NatText(n)
  }

  lemma {:induction false} NatTextValue(n: nat)
    ensures Value(NatText(n), 10) == n
    ensures |NatText(n)| > 1 ==> NatText(n)[0] != '0'
  {
    if n >= 10 {
      NatTextValue(n / 10);
      var s := NatText(n);
      assert s[..|s| - 1] == NatText(n / 10);
      assert n / 10 > 0;
      if n / 10 >= 10 {
        assert s[0] == NatText(n / 10)[0];
      } else {
        assert s[0] == DigitChar(n / 10);
      }
    }
  }

  lemma {:induction false} RunLengthAll(s: string, radix: nat)
    requires forall i :: 0 <= i < |s| ==> DigitValue(s[i]) < radix
    ensures RunLength(s, radix) == |s|
  {
    if s != [] {
      RunLengthAll(s[1..], radix);
    }
  }

  lemma ParseNatText(n: nat)
    ensures ParseMagnitude(NatText(n)) == Some(n)
  {
    var s := NatText(n);
    NatTextValue(n);
    assert !HasHexPrefix(s);
    RunLengthAll(s, 10);
    assert s[..|s|] == s;
  }

  lemma TrimStartNoSpace(s: string)
    requires s != [] && !IsSpace(s[0])
    ensures TrimStart(s) == s
  {
  }

  /** Reading back a stored integer gives that integer: `parseInt(String(n)) == n`. */
  lemma ParseIntText(n: int)
    ensures ParseInt(IntText(n)) == Some(n)
  {
    var s := IntText(n);
    var m: nat := if n < 0 then -n else n;
    TrimStartNoSpace(s);
    ParseNatText(m);
    if n < 0 {
      assert s[0] == '-' && s[1..] == NatText(m);
    } else {
      assert IsDigit(s[0]) && s == NatText(m);
    }
  }

  // ---------------------------------------------------------------------
  // Fallbacks

  /** JavaScript `x || fallback` for a number x: `NaN` and 0 are falsy. */
  function IntOr(x: Option<int>, fallback: int): (r: int)
    ensures fallback != 0 ==> r != 0
    ensures x.Some? && x.value != 0 ==> r == x.value
    ensures x.None? || x.value == 0 ==> r == fallback
  {
    if x.Some? && x.value != 0 then x.value else fallback
  }

  /** `localStorage.getItem(key)` as `parseInt` sees it: `null` becomes
      "null", which reads as `NaN`. */
  function StoredText(item: Option<string>): (text: string)
    ensures item.Some? ==> text == item.value
    ensures item.None? ==> ParseInt(text) == None
  {
    ParseIntNull();
    match item
    case None => "null"
    case Some(text) => text
  }

  /** `parseInt(text) || 1000`, where an input box's or the store's text
      becomes a trade limit. */
  function TradeLimitOf(text: string): (limit: int)
    ensures limit != 0
    ensures ParseInt(text).Some? && ParseInt(text).value != 0 ==> limit == ParseInt(text).value
    ensures limit == DefaultTradeLimit <==>
      ParseInt(text) in {None, Some(0), Some(DefaultTradeLimit)}
  {
    IntOr(ParseInt(text), DefaultTradeLimit)
  }

  /** The trade limit read at start-up: `parseInt(localStorage.getItem('tradeLimit')) || 1000`. */
  function LoadTradeLimit(item: Option<string>): (limit: int)
    ensures item.None? ==> limit == DefaultTradeLimit
  {
    TradeLimitOf(StoredText(item))
  }

  /** `parseInt("null")` is `NaN`: 'n' is no digit. */
  lemma ParseIntNull()
    ensures ParseInt("null") == None
  {
    var s := "null";
    TrimStartNoSpace(s);
    assert !HasHexPrefix(s);
    assert DigitValue(s[0]) == 23;
    assert RunLength(s, 10) == 0;
  }

  /** `localStorage.getItem(key) || fallback`, the text an input box starts
      with: a missing or empty entry shows the fallback text. */
  function SavedText(item: Option<string>, fallback: string): (text: string)
    ensures item.None? || item == Some("") ==> text == fallback
    ensures item.Some? && item.value != "" ==> text == item.value
  {
    if item.Some? && item.value != "" then item.value else fallback
  }

  /** The trade-limit box starts with text that reads as the limit loaded
      at start-up, whatever is stored. */
  lemma InputBoxAgreesWithStartup(item: Option<string>)
    ensures TradeLimitOf(SavedText(item, "1000")) == LoadTradeLimit(item)
  {
    assert ParseInt("1000") == Some(1000) by {
      assert NatText(1000) == "1000" by {
        assert NatText(1) == "1";
        assert NatText(10) == "10";
        assert NatText(100) == "100";
      }
      ParseIntText(1000);
    }
    assert ParseInt("") == None;
  }

  /** `parseFloat(text) || 2` with `parseFloat`'s result given: a threshold
      of 0 can never be set this way. */
  function ThresholdOf(parsed: Option<real>): (threshold: real)
    ensures threshold != 0.0
    ensures parsed.Some? && parsed.value != 0.0 ==> threshold == parsed.value
    ensures parsed.None? || parsed.value == 0.0 ==> threshold == FallbackThreshold
  {
    if parsed.Some? && parsed.value != 0.0 then parsed.value else FallbackThreshold
  }

  /** A trade limit entered in the input box survives a reload: it is
      stored as its decimal text and read back as the same number. */
  lemma TradeLimitPersists(text: string)
    ensures LoadTradeLimit(Some(IntText(TradeLimitOf(text)))) == TradeLimitOf(text)
  {
    ParseIntText(TradeLimitOf(text));
  }

  /** Text that starts with decimal digits (no white space, sign or `0x`)
      reads as the value of its longest digit prefix. */
  lemma ParseIntDecimalPrefix(s: string, digits: nat, value: nat)
    requires s != [] && !IsSpace(s[0]) && s[0] != '-' && s[0] != '+' && !HasHexPrefix(s)
    requires RunLength(s, 10) == digits && digits > 0 && Value(s[..digits], 10) == value
    ensures ParseInt(s) == Some(value)
  {
    TrimStartNoSpace(s);
  }

  /** `parseInt` ignores the text after the digits. */
  lemma ParseIntTrailingText()
    ensures ParseInt("25 trades") == Some(25)
  {
    var s := "25 trades";
    assert s[1..][1..] == s[2..] && s[2] == ' ';
    assert RunLength(s[2..], 10) == 0;
    assert RunLength(s[1..], 10) == 1;
    assert RunLength(s, 10) == 2;
    assert s[..2] == "25" && "25"[..1] == "2";
    assert Value("25", 10) == 25;
    ParseIntDecimalPrefix(s, 2, 25);
  }

  lemma ParseIntNegative()
    ensures ParseInt("-5") == Some(-5)
  {
    var s := "-5";
    TrimStartNoSpace(s);
    assert s[1..] == "5" && "5"[..1] == "5";
    assert RunLength("5", 10) == 1;
    assert ParseMagnitude("5") == Some(5);
  }

  lemma ParseIntZero()
    ensures ParseInt("0") == Some(0)
  {
    assert "0"[..1] == "0";
    assert RunLength("0", 10) == 1;
    ParseIntDecimalPrefix("0", 1, 0);
  }

  lemma ParseIntNotANumber(s: string)
    requires s != [] && !IsSpace(s[0]) && s[0] != '-' && s[0] != '+'
    requires DigitValue(s[0]) >= 10
    ensures ParseInt(s) == None
  {
    TrimStartNoSpace(s);
    assert !HasHexPrefix(s);
  }

  /** `parseInt` reads a `0x` prefix as hexadecimal. */
  lemma ParseIntHex()
    ensures ParseInt("0x10") == Some(16)
  {
    ParseIntUnsigned("0x10");
    HexMagnitude();
  }

  /** Text without leading white space or sign reads as its magnitude. */
  lemma ParseIntUnsigned(s: string)
    requires s != [] && !IsSpace(s[0]) && s[0] != '-' && s[0] != '+'
    ensures ParseInt(s) == if ParseMagnitude(s).Some? then Some(ParseMagnitude(s).value as int) else None
  {
    TrimStartNoSpace(s);
  }

  lemma HexMagnitude()
    ensures ParseMagnitude("0x10") == Some(16)
  {
    var s := "0x10";
    assert HasHexPrefix(s) && s[2..] == "10";
    assert "10"[1..] == "0";
    assert RunLength("0", 16) == 1;
    assert RunLength("10", 16) == 2;
    assert "10"[..2] == "10" && "10"[..1] == "1";
    assert Value("10", 16) == 16;
  }

  /** The input box accepts a negative limit, which `slice(0, limit)` then
      reads as "all but the last 5". */
  lemma TradeLimitNegative()
    ensures TradeLimitOf("-5") == -5
  {
    ParseIntNegative();
  }

  /** 0 and text without digits give the default limit. */
  lemma TradeLimitDefault()
    ensures TradeLimitOf("0") == DefaultTradeLimit
    ensures TradeLimitOf("abc") == DefaultTradeLimit
  {
    ParseIntZero();
    ParseIntNotANumber("abc");
  }

  // ---------------------------------------------------------------------
  // The "Set Trades to Show" menu command

  /** What the menu command does with the prompt's answer. */
  datatype MenuOutcome =
    | Cancelled             // the prompt returned null: nothing happens
    | Rejected              // "Invalid input" alert; nothing stored, no callback
    | Accepted(limit: int)  // stored, callback invoked, confirmation alert

  function MenuCommand(answer: Option<string>): (o: MenuOutcome)
    ensures o.Cancelled? <==> answer.None?
    ensures o.Accepted? <==> answer.Some? && ParseInt(answer.value).Some?
                             && ParseInt(answer.value).value > 0
    ensures o.Accepted? ==> o.limit > 0 && ParseInt(answer.value) == Some(o.limit)
  {
    match answer
    case None => Cancelled
    case Some(text) =>
      match ParseInt(text)
      case Some(n) => if n > 0 then Accepted(n) else Rejected
      case None => Rejected
  }

  /** The stored trade limit after the command: replaced only when accepted. */
  function StoreAfter(stored: Option<string>, o: MenuOutcome): (r: Option<string>)
    ensures !o.Accepted? ==> r == stored
  {
    if o.Accepted? then Some(IntText(o.limit)) else stored
  }

  /** The argument the callback `onTradeLimitChange` receives, if it is called. */
  function CallbackArgument(o: MenuOutcome): (r: Option<int>)
    ensures r.Some? <==> o.Accepted?
  {
    if o.Accepted? then Some(o.limit) else None
  }

  /** A limit accepted by the menu is what the next start-up reads, and it is
      the value the callback gets. */
  lemma MenuLimitPersists(stored: Option<string>, answer: Option<string>)
    requires MenuCommand(answer).Accepted?
    ensures var o := MenuCommand(answer);
      LoadTradeLimit(StoreAfter(stored, o)) == o.limit
      && CallbackArgument(o) == Some(o.limit)
  {
    ParseIntText(MenuCommand(answer).limit);
  }

  /** The menu rejects what the input box accepts: a negative limit. */
  lemma MenuExamples()
    ensures MenuCommand(Some("-5")) == Rejected
    ensures MenuCommand(Some("0")) == Rejected
    ensures MenuCommand(Some("x")) == Rejected
    ensures MenuCommand(Some("25 trades")) == Accepted(25)
    ensures MenuCommand(None) == Cancelled
  {
    ParseIntNegative();
    ParseIntZero();
    ParseIntNotANumber("x");
    ParseIntTrailingText();
  }
}
