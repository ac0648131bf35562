// The text that /dev/kthread_demo renders drained items as (15_kthreads/kthreads.c), and a parser
// for it.

module SnapshotText {
  import opened Tally
  import opened RingHistory

  // ---------------------------------------------------------------------------------------
  // Decimal numbers
  // ---------------------------------------------------------------------------------------

  predicate IsDigit(c: char) {
    '0' <= c <= '9'
  }

  function DigitChar(d: nat): (c: char)
    requires d < 10
    ensures IsDigit(c) && DigitValue(c) == d
  {
    '0' + d as char
  }

  function DigitValue(c: char): nat
    requires IsDigit(c)
  {
    (c - '0') as nat
  }

  /** %llu */
  function Decimal(n: nat): (s: string)
    ensures s != [] && forall i :: 0 <= i < |s| ==> IsDigit(s[i])
  {
    if n < 10 then [DigitChar(n)] else Decimal(n / 10) + [DigitChar(n % 10)]
  }

  /** The value of digits read after a number acc. */
  function Value(digits: string, acc: nat): nat
    requires forall i :: 0 <= i < |digits| ==> IsDigit(digits[i])
  {
    if digits == [] then acc
    else Value(digits[..|digits| - 1], acc) * 10 + DigitValue(digits[|digits| - 1])
  }

  lemma {:induction false} ValueOfDecimal(n: nat)
    ensures Value(Decimal(n), 0) == n
  {
    if n >= 10 {
      ValueOfDecimal(n / 10);
      assert Decimal(n)[..|Decimal(n)| - 1] == Decimal(n / 10);
    } else {
      assert Decimal(n)[..0] == [];
    }
  }

  /** Reads as many digits as there are: the number, and the text after it. */
  function ReadDigits(t: string, acc: nat): (nat, string) {
    if t != [] && IsDigit(t[0]) then ReadDigits(t[1..], acc * 10 + DigitValue(t[0])) else (acc, t)
  }

  predicate StartsWithDigit(t: string) {
    t != [] && IsDigit(t[0])
  }

  lemma {:induction false} ValueFromFront(digits: string, acc: nat)
    requires digits != [] && forall i :: 0 <= i < |digits| ==> IsDigit(digits[i])
    ensures Value(digits, acc) == Value(digits[1..], acc * 10 + DigitValue(digits[0]))
    decreases |digits|
  {
    if |digits| > 1 {
      ValueFromFront(digits[..|digits| - 1], acc);
      assert digits[..|digits| - 1][1..] == digits[1..][..|digits[1..]| - 1];
    } else {
      assert digits[..0] == [] && digits[1..] == [];
    }
  }

  lemma {:induction false} ReadDigitsReads(digits: string, rest: string, acc: nat)
    requires forall i :: 0 <= i < |digits| ==> IsDigit(digits[i])
    requires !StartsWithDigit(rest)
    ensures ReadDigits(digits + rest, acc) == (Value(digits, acc), rest)
    decreases |digits|
  {
    if digits == [] {
      assert digits + rest == rest;
    } else {
      ValueFromFront(digits, acc);
      ReadDigitsReads(digits[1..], rest, acc * 10 + DigitValue(digits[0]));
      assert (digits + rest)[1..] == digits[1..] + rest;
    }
  }

  // ---------------------------------------------------------------------------------------
  // Lines
  // ---------------------------------------------------------------------------------------

  function Line(item: Item): string {
    "seq=" + (Decimal(item.num) + (" ns=" + (Decimal(item.ns) + "\n")))
  }

  function Render(items: seq<Item>): string
    decreases |items|
  {
    if items == [] then "" else Line(items[0]) + Render(items[1..])
  }

  lemma {:induction false} RenderJoins(a: seq<Item>, b: seq<Item>)
    ensures Render(a + b) == Render(a) + Render(b)
    decreases |a|
  {
    if a == [] {
      assert a + b == b;
    } else {
      RenderJoins(a[1..], b);
      assert (a + b)[1..] == a[1..] + b && (a + b)[0] == a[0];
      Regroup(Line(a[0]), Render(a[1..]), Render(b));
    }
  }

  function Skip(prefix: string, t: string): Option<string> {
    if prefix <= t then Some(t[|prefix|..]) else None
  }

  function ReadNumber(t: string): Option<(nat, string)> {
    if StartsWithDigit(t) then Some(ReadDigits(t, 0)) else None
  }

  function ReadLine(t: string): Option<(Item, string)> {
    match Skip("seq=", t)
    case None => None
    case Some(t1) =>
      match ReadNumber(t1)
      case None => None
      case Some((num, t2)) =>
        match Skip(" ns=", t2)
        case None => None
        case Some(t3) =>
          match ReadNumber(t3)
          case None => None
          case Some((ns, t4)) =>
            match Skip("\n", t4)
            case None => None
            case Some(rest) => Some((Item(num, ns), rest))
  }

  lemma {:induction false} ReadDigitsShortens(t: string, acc: nat)
    ensures |ReadDigits(t, acc).1| <= |t|
    decreases |t|
  {
    if StartsWithDigit(t) {
      ReadDigitsShortens(t[1..], acc * 10 + DigitValue(t[0]));
    }
  }

  lemma ReadLineShortens(t: string)
    ensures ReadLine(t).Some? ==> |ReadLine(t).value.1| < |t|
  {
    var t1 := Skip("seq=", t);
    if t1.Some? && StartsWithDigit(t1.value) {
      ReadDigitsShortens(t1.value, 0);
      var t3 := Skip(" ns=", ReadDigits(t1.value, 0).1);
      if t3.Some? {
        ReadDigitsShortens(t3.value, 0);
      }
    }
  }

  /** The items a text lists, if it is nothing but whole lines. */
  function ReadItems(t: string): Option<seq<Item>>
    decreases |t|
  {
    if t == "" then Some([])
    else
      ReadLineShortens(t);
      match ReadLine(t)
      case None => None
      case Some((item, rest)) =>
        match ReadItems(rest)
        case None => None
        case Some(items) => Some([item] + items)
  }

  lemma SkipSkips(prefix: string, rest: string)
    ensures Skip(prefix, prefix + rest) == Some(rest)
  {
  }

  lemma ReadNumberReads(n: nat, rest: string)
    requires !StartsWithDigit(rest)
    ensures ReadNumber(Decimal(n) + rest) == Some((n, rest))
  {
    ReadDigitsReads(Decimal(n), rest, 0);
    ValueOfDecimal(n);
  }

  lemma LineThen(item: Item, rest: string)
    ensures Line(item) + rest
            == "seq=" + (Decimal(item.num) + (" ns=" + (Decimal(item.ns) + ("\n" + rest))))
  {
    Regroup(Decimal(item.ns), "\n", rest);
    Regroup(" ns=", Decimal(item.ns) + "\n", rest);
    Regroup(Decimal(item.num), " ns=" + (Decimal(item.ns) + "\n"), rest);
    Regroup("seq=", Decimal(item.num) + (" ns=" + (Decimal(item.ns) + "\n")), rest);
  }

  lemma ReadLineReads(item: Item, rest: string)
    ensures ReadLine(Line(item) + rest) == Some((item, rest))
  {
    var u4 := "\n" + rest;
    var u3 := Decimal(item.ns) + u4;
    var u2 := " ns=" + u3;
    var u1 := Decimal(item.num) + u2;
    LineThen(item, rest);
    SkipSkips("seq=", u1);
    ReadNumberReads(item.num, u2);
    SkipSkips(" ns=", u3);
    ReadNumberReads(item.ns, u4);
    SkipSkips("\n", rest);
  }

  /** Round trip: a rendering parses back to the items it lists. */
  lemma {:induction false} ReadItemsOfRender(items: seq<Item>)
    ensures ReadItems(Render(items)) == Some(items)
    decreases |items|
  {
    if items != [] {
      ReadLineReads(items[0], Render(items[1..]));
      ReadItemsOfRender(items[1..]);
      assert Render(items) != "" && items == [items[0]] + items[1..];
    }
  }

  // ---------------------------------------------------------------------------------------
  // A rendering cut short does not parse back
  // ---------------------------------------------------------------------------------------

  function Newlines(t: string): nat {
    if t == [] then 0 else Newlines(t[..|t| - 1]) + if t[|t| - 1] == '\n' then 1 else 0
  }

  lemma {:induction false} NewlinesJoin(a: string, b: string)
    ensures Newlines(a + b) == Newlines(a) + Newlines(b)
    decreases |b|
  {
    if b == [] {
      assert a + b == a;
    } else {
      NewlinesJoin(a, b[..|b| - 1]);
      assert (a + b)[..|a + b| - 1] == a + b[..|b| - 1];
    }
  }

  lemma {:induction false} NoNewlines(t: string)
    requires forall i :: 0 <= i < |t| ==> t[i] != '\n'
    ensures Newlines(t) == 0
    decreases |t|
  {
    if t != [] {
      NoNewlines(t[..|t| - 1]);
    }
  }

  lemma OneNewline()
    ensures Newlines("\n") == 1
  {
    assert "\n"[..0] == "";
  }

  lemma NewlinesInLine(item: Item)
    ensures Newlines(Line(item)) == 1
  {
    var body := "seq=" + (Decimal(item.num) + (" ns=" + Decimal(item.ns)));
    NoNewlines(body);
    OneNewline();
    NewlinesJoin(body, "\n");
    assert Line(item) == body + "\n";
  }

  lemma {:induction false} NewlinesInRender(items: seq<Item>)
    ensures Newlines(Render(items)) == |items|
    ensures items != [] ==> Render(items) != [] && Render(items)[|Render(items)| - 1] == '\n'
    decreases |items|
  {
    if items != [] {
      NewlinesInLine(items[0]);
      NewlinesInRender(items[1..]);
      NewlinesJoin(Line(items[0]), Render(items[1..]));
    }
  }

  lemma {:induction false} ReadDigitsKeepsNewlines(t: string, acc: nat)
    ensures Newlines(ReadDigits(t, acc).1) == Newlines(t)
    decreases |t|
  {
    if StartsWithDigit(t) {
      ReadDigitsKeepsNewlines(t[1..], acc * 10 + DigitValue(t[0]));
      NoNewlines(t[..1]);
      NewlinesJoin(t[..1], t[1..]);
      assert t == t[..1] + t[1..];
    }
  }

  lemma SkipCountsNewlines(prefix: string, t: string)
    requires Skip(prefix, t).Some?
    ensures Newlines(t) == Newlines(prefix) + Newlines(Skip(prefix, t).value)
  {
    NewlinesJoin(prefix, t[|prefix|..]);
    assert t == prefix + t[|prefix|..];
  }

  lemma ReadLineTakesOneNewline(t: string)
    requires ReadLine(t).Some?
    ensures Newlines(t) == 1 + Newlines(ReadLine(t).value.1)
  {
    NoNewlines("seq=");
    NoNewlines(" ns=");
    OneNewline();
    var t1 := Skip("seq=", t).value;
    SkipCountsNewlines("seq=", t);
    ReadDigitsKeepsNewlines(t1, 0);
    var t2 := ReadDigits(t1, 0).1;
    SkipCountsNewlines(" ns=", t2);
    var t3 := Skip(" ns=", t2).value;
    ReadDigitsKeepsNewlines(t3, 0);
    SkipCountsNewlines("\n", ReadDigits(t3, 0).1);
  }

  lemma {:induction false} ItemsAreNewlines(t: string)
    requires ReadItems(t).Some?
    ensures |ReadItems(t).value| == Newlines(t)
    decreases |t|
  {
    if t != "" {
      ReadLineShortens(t);
      ReadLineTakesOneNewline(t);
      ItemsAreNewlines(ReadLine(t).value.1);
    }
  }

  lemma ProperPrefixHasFewerLines(items: seq<Item>, cut: nat)
    requires cut < |Render(items)|
    ensures Newlines(Render(items)[..cut]) < |items|
  {
    var whole := Render(items);
    var rest := whole[cut..];
    NewlinesInRender(items);
    NewlinesJoin(whole[..cut], rest);
    assert whole[..cut] + rest == whole;
    assert rest[|rest| - 1] == '\n';
  }

  /** A prefix of a rendering parses back to the items exactly when it is all of it. */
  lemma {:induction false} OnlyWholeRenderingParses(items: seq<Item>, cut: nat)
    requires cut <= |Render(items)|
    ensures ReadItems(Render(items)[..cut]) == Some(items) <==> cut == |Render(items)|
  {
    var text := Render(items)[..cut];
    if cut == |Render(items)| {
      ReadItemsOfRender(items);
      assert text == Render(items);
    } else {
      ProperPrefixHasFewerLines(items, cut);
      if ReadItems(text).Some? {
        ItemsAreNewlines(text);
      }
    }
  }

  // ---------------------------------------------------------------------------------------
  // The rendering is the only text without leading zeros that parses to the items
  // ---------------------------------------------------------------------------------------

  /** No number that is longer than one digit begins with a zero. */
  ghost predicate NoLeadingZeros(t: string) {
    forall i :: 0 <= i < |t| - 1 && t[i] == '0' && IsDigit(t[i + 1]) ==> i > 0 && IsDigit(t[i - 1])
  }

  /** Digits as %llu prints them. */
  ghost predicate Canonical(digits: string) {
    && digits != [] && (forall i :: 0 <= i < |digits| ==> IsDigit(digits[i]))
    && (digits[0] == '0' ==> |digits| == 1)
  }

  lemma {:induction false} DecimalIsCanonical(n: nat)
    ensures Canonical(Decimal(n)) && (n > 0 ==> Decimal(n)[0] != '0')
  {
    if n >= 10 {
      DecimalIsCanonical(n / 10);
    }
  }

  lemma {:induction false} CanonicalIsPositive(digits: string)
    requires Canonical(digits) && digits[0] != '0'
    ensures Value(digits, 0) > 0
    decreases |digits|
  {
    if |digits| > 1 {
      CanonicalIsPositive(digits[..|digits| - 1]);
    } else {
      assert digits[..0] == [];
    }
  }

  /** The decimal of a number is the only canonical spelling of it. */
  lemma {:induction false} CanonicalIsDecimal(digits: string)
    requires Canonical(digits)
    ensures Decimal(Value(digits, 0)) == digits
    decreases |digits|
  {
    var init, last := digits[..|digits| - 1], digits[|digits| - 1];
    assert digits == init + [last] && last == DigitChar(DigitValue(last));
    if |digits| > 1 {
      CanonicalIsPositive(init);
      CanonicalIsDecimal(init);
      assert Value(digits, 0) / 10 == Value(init, 0) && Value(digits, 0) % 10 == DigitValue(last);
    }
  }

  /** What ReadDigits has read is the digits at the front, all of them. */
  lemma {:induction false} ReadDigitsSplits(t: string, acc: nat) returns (k: nat)
    ensures k <= |t| && (forall i :: 0 <= i < k ==> IsDigit(t[i])) && !StartsWithDigit(t[k..])
    ensures ReadDigits(t, acc) == (Value(t[..k], acc), t[k..])
    decreases |t|
  {
    if StartsWithDigit(t) {
      var m := ReadDigitsSplits(t[1..], acc * 10 + DigitValue(t[0]));
      k := m + 1;
      assert t[1..][..m] == t[..k][1..] && t[1..][m..] == t[k..];
      ValueFromFront(t[..k], acc);
    } else {
      k := 0;
      assert t[..0] == [] && t[0..] == t;
    }
  }

  /** Where a text is cut before or after something that is no digit, the rest has no leading zeros either. */
  lemma SuffixHasNoLeadingZeros(before: string, t: string)
    requires NoLeadingZeros(before + t)
    requires before == [] || !IsDigit(before[|before| - 1]) || !StartsWithDigit(t)
    ensures NoLeadingZeros(t)
  {
    var whole := before + t;
    forall i | 0 <= i < |t| - 1 && t[i] == '0' && IsDigit(t[i + 1]) ensures i > 0 && IsDigit(t[i - 1]) {
      assert whole[|before| + i] == t[i] && whole[|before| + i + 1] == t[i + 1];
      assert i > 0 ==> whole[|before| + i - 1] == t[i - 1];
      assert before != [] ==> whole[|before| - 1] == before[|before| - 1];
    }
  }

  lemma JoinHasNoLeadingZeros(before: string, t: string)
    requires NoLeadingZeros(before) && NoLeadingZeros(t)
    requires before == [] || !IsDigit(before[|before| - 1])
    ensures NoLeadingZeros(before + t)
  {
    var whole := before + t;
    forall i | 0 <= i < |whole| - 1 && whole[i] == '0' && IsDigit(whole[i + 1])
      ensures i > 0 && IsDigit(whole[i - 1])
    {
      if i >= |before| {
        assert t[i - |before|] == '0' && IsDigit(t[i - |before| + 1]);
      }
    }
  }

  lemma SkipJoins(prefix: string, t: string)
    requires Skip(prefix, t).Some?
    ensures t == prefix + Skip(prefix, t).value
  {
  }

  /** A number read from a text without leading zeros is spelled there as it is printed. */
  lemma NumberIsDecimal(t: string)
    requires ReadNumber(t).Some? && NoLeadingZeros(t)
    ensures t == Decimal(ReadNumber(t).value.0) + ReadNumber(t).value.1
    ensures NoLeadingZeros(ReadNumber(t).value.1)
  {
    var k := ReadDigitsSplits(t, 0);
    assert k > 0 && Canonical(t[..k]) && t[..k] + t[k..] == t;
    CanonicalIsDecimal(t[..k]);
    SuffixHasNoLeadingZeros(t[..k], t[k..]);
  }

  lemma NothingSkipped(prefix: string, t: string)
    requires Skip(prefix, t).Some? && NoLeadingZeros(t) && prefix != [] && !IsDigit(prefix[|prefix| - 1])
    ensures t == prefix + Skip(prefix, t).value && NoLeadingZeros(Skip(prefix, t).value)
  {
    SkipJoins(prefix, t);
    SuffixHasNoLeadingZeros(prefix, Skip(prefix, t).value);
  }

  lemma LineIsRendered(t: string)
    requires ReadLine(t).Some? && NoLeadingZeros(t)
    ensures t == Line(ReadLine(t).value.0) + ReadLine(t).value.1 && NoLeadingZeros(ReadLine(t).value.1)
  {
    NothingSkipped("seq=", t);
    var t1 := Skip("seq=", t).value;
    NumberIsDecimal(t1);
    var (num, t2) := ReadNumber(t1).value;
    NothingSkipped(" ns=", t2);
    var t3 := Skip(" ns=", t2).value;
    NumberIsDecimal(t3);
    var (ns, t4) := ReadNumber(t3).value;
    NothingSkipped("\n", t4);
    LineThen(Item(num, ns), Skip("\n", t4).value);
  }

  lemma {:induction false} ParsedIsRendered(t: string)
    requires ReadItems(t).Some? && NoLeadingZeros(t)
    ensures t == Render(ReadItems(t).value)
    decreases |t|
  {
    if t != "" {
      ReadLineShortens(t);
      LineIsRendered(t);
      ParsedIsRendered(ReadLine(t).value.1);
      var item, rest := ReadLine(t).value.0, ReadItems(ReadLine(t).value.1).value;
      assert ([item] + rest)[1..] == rest;
    }
  }

  lemma DecimalHasNoLeadingZeros(n: nat)
    ensures NoLeadingZeros(Decimal(n))
  {
    DecimalIsCanonical(n);
  }

  lemma LineHasNoLeadingZeros(item: Item)
    ensures NoLeadingZeros(Line(item))
  {
    var ns := Decimal(item.ns);
    DecimalHasNoLeadingZeros(item.num);
    DecimalHasNoLeadingZeros(item.ns);
    JoinHasNoLeadingZeros("seq=", Decimal(item.num));
    assert NoLeadingZeros(ns + "\n");
    var head := "seq=" + Decimal(item.num) + " ns=";
    assert NoLeadingZeros(head);
    JoinHasNoLeadingZeros(head, ns + "\n");
    assert Line(item) == head + (ns + "\n");
  }

  lemma {:induction false} RenderHasNoLeadingZeros(items: seq<Item>)
    ensures NoLeadingZeros(Render(items))
    decreases |items|
  {
    if items != [] {
      LineHasNoLeadingZeros(items[0]);
      RenderHasNoLeadingZeros(items[1..]);
      JoinHasNoLeadingZeros(Line(items[0]), Render(items[1..]));
    }
  }

  /** The rendering of a list of items is the one text of whole lines that parses to them and has no leading
      zeros. */
  lemma RenderIsTheOnlyText(t: string, items: seq<Item>)
    ensures t == Render(items) <==> ReadItems(t) == Some(items) && NoLeadingZeros(t)
  {
    if t == Render(items) {
      ReadItemsOfRender(items);
      RenderHasNoLeadingZeros(items);
    }
    if ReadItems(t) == Some(items) && NoLeadingZeros(t) {
      ParsedIsRendered(t);
    }
  }

  /** What a line looks like. */
  lemma LineForExample()
    ensures Line(Item(0, 57)) == "seq=0 ns=57\n"
  {
    assert Decimal(57) == Decimal(5) + ['7'] == "57";
  }
}
