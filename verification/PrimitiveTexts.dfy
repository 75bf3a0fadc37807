/** The languages of the converter's built-in rules, by their characters. */
module PrimitiveTexts {
  import opened Basics
  import opened Decimals
  import opened JsonText
  import opened Gbnf
  import opened RuleStore
  import opened Primitives
  import opened ObjectTexts
  import opened SchemaObjects
  import opened SchemaChoices
  import NotStrings

  // ---------- texts of fixed width ----------

  lemma {:induction false} AfterFixed(g: Rules, l: Expr, n: nat, r: Expr, s: string)
    requires forall x: string :: Accepts(g, l, x) ==> |x| == n
    ensures Accepts(g, Cat(l, r), s) <==> |s| >= n && Accepts(g, l, s[..n]) && Accepts(g, r, s[n..])
  {
    hide Accepts;
    AcceptsCat(g, l, r, s);
  }

  lemma {:induction false} InRange(lo: char, hi: char, c: char)
    ensures InClass(c, [(lo, hi)]) <==> lo <= c <= hi
  {
    assert [(lo, hi)][0] == (lo, hi);
  }

  lemma {:induction false} BetweenExact(g: Rules, lo: char, hi: char, x: string)
    ensures Accepts(g, Between(lo, hi), x) <==> |x| == 1 && lo <= x[0] <= hi
  {
    AcceptsClass(g, [(lo, hi)], false, x);
    hide Accepts;
    if |x| == 1 { InRange(lo, hi, x[0]); }
  }

  lemma {:induction false} DigitsExact(g: Rules, lo: nat, hi: Option<nat>, x: string)
    ensures Accepts(g, Rep(Digit(), lo, hi), x) <==> CountOk(|x|, lo, hi) && IsDigits(x)
  {
    AcceptsRepClass(g, [('0', '9')], false, lo, hi, x);
    hide Accepts;
    forall c ensures InClass(c, [('0', '9')]) <==> IsDigit(c) { InRange('0', '9', c); }
  }

  function Two(x: string): int
    requires |x| == 2
  {
    10 * (x[0] as int - '0' as int) + (x[1] as int - '0' as int)
  }

  // Two digits that stand for a number between the limits.
  predicate TwoDigits(x: string, lo: int, hi: int) { |x| == 2 && IsDigits(x) && lo <= Two(x) <= hi }

  lemma {:induction false} PairExact(g: Rules, a: char, b: char, c: char, d: char, x: string)
    ensures Accepts(g, Cat(Between(a, b), Between(c, d)), x) <==> |x| == 2 && a <= x[0] <= b && c <= x[1] <= d
  {
    hide Accepts;
    forall y: string ensures Accepts(g, Between(a, b), y) <==> |y| == 1 && a <= y[0] <= b { BetweenExact(g, a, b, y); }
    AfterFixed(g, Between(a, b), 1, Between(c, d), x);
    if |x| >= 1 { BetweenExact(g, c, d, x[1..]); }
  }

  lemma {:induction false} LitRange(g: Rules, a: char, c: char, d: char, x: string)
    ensures Accepts(g, Cat(Lit([a]), Between(c, d)), x) <==> |x| == 2 && x[0] == a && c <= x[1] <= d
  {
    hide Accepts;
    CatLit(g, [a], Between(c, d), x);
    if [a] <= x { BetweenExact(g, c, d, x[1..]); }
  }

  lemma {:induction false} SixtyExact(g: Rules, x: string)
    ensures Accepts(g, Sixty(), x) <==> TwoDigits(x, 0, 59)
  {
    PairExact(g, '0', '5', '0', '9', x);
    hide Accepts;
  }

  lemma {:induction false} HoursExact(g: Rules, x: string)
    ensures Accepts(g, Hours(), x) <==> TwoDigits(x, 0, 23)
  {
    AcceptsAlt(g, Cat(Between('0', '1'), Digit()), Cat(Lit("2"), Between('0', '3')), x);
    PairExact(g, '0', '1', '0', '9', x);
    LitRange(g, '2', '0', '3', x);
    hide Accepts;
  }

  lemma {:induction false} MonthsExact(g: Rules, x: string)
    ensures Accepts(g, Months(), x) <==> TwoDigits(x, 1, 12)
  {
    AcceptsAlt(g, Cat(Lit("0"), Between('1', '9')), Cat(Lit("1"), Between('0', '2')), x);
    LitRange(g, '0', '1', '9', x);
    LitRange(g, '1', '0', '2', x);
    hide Accepts;
  }

  lemma {:induction false} DaysExact(g: Rules, x: string)
    ensures Accepts(g, Days(), x) <==> TwoDigits(x, 1, 31)
  {
    var late := Alt(Cat(Between('1', '2'), Digit()), Cat(Lit("3"), Between('0', '1')));
    AcceptsAlt(g, Cat(Lit("0"), Between('1', '9')), late, x);
    AcceptsAlt(g, late.left, late.right, x);
    LitRange(g, '0', '1', '9', x);
    PairExact(g, '1', '2', '0', '9', x);
    LitRange(g, '3', '0', '1', x);
    hide Accepts;
  }

  // ---------- dates and times ----------

  predicate DateText(s: string) {
    |s| == 10 && IsDigits(s[..4]) && s[4] == '-' && TwoDigits(s[5..7], 1, 12) && s[7] == '-' && TwoDigits(s[8..], 1, 31)
  }

  lemma {:induction false} DateExact(g: Rules, s: string)
    ensures Accepts(g, DateRule().content, s) <==> DateText(s)
  {
    hide Accepts, Months, Days, Two;
    var days := Days();
    var month := Cat(Months(), Cat(Lit("-"), days));
    forall x: string ensures Accepts(g, Digits(4), x) <==> |x| == 4 && IsDigits(x) { DigitsExact(g, 4, Some(4), x); }
    forall x: string ensures Accepts(g, Months(), x) <==> TwoDigits(x, 1, 12) { MonthsExact(g, x); }
    AfterFixed(g, Digits(4), 4, Cat(Lit("-"), month), s);
    if |s| >= 4 {
      CatLit(g, "-", month, s[4..]);
      if |s| >= 5 {
        assert s[4..][1..] == s[5..];
        AfterFixed(g, Months(), 2, Cat(Lit("-"), days), s[5..]);
        if |s| >= 7 {
          assert s[5..][..2] == s[5..7] && s[5..][2..] == s[7..];
          CatLit(g, "-", days, s[7..]);
          if |s| >= 8 {
            assert s[7..][1..] == s[8..];
            DaysExact(g, s[8..]);
          }
        }
      }
    }
  }

  predicate ZoneText(s: string) {
    s == "Z" || (|s| == 6 && (s[0] == '+' || s[0] == '-') && TwoDigits(s[1..3], 0, 23) && s[3] == ':' && TwoDigits(s[4..], 0, 59))
  }

  lemma {:induction false} SignExact(g: Rules, x: string)
    ensures Accepts(g, Alt(Lit("+"), Lit("-")), x) <==> x == "+" || x == "-"
  {
    AcceptsAlt(g, Lit("+"), Lit("-"), x);
    AcceptsLit(g, "+", x);
    AcceptsLit(g, "-", x);
  }

  lemma {:induction false} OffsetHours(g: Rules, x: string)
    ensures Accepts(g, Cat(Alt(Lit("+"), Lit("-")), Hours()), x) <==> |x| == 3 && (x[0] == '+' || x[0] == '-') && TwoDigits(x[1..], 0, 23)
  {
    hide Accepts, Hours, Two;
    var sign := Alt(Lit("+"), Lit("-"));
    forall y: string ensures Accepts(g, sign, y) <==> y == "+" || y == "-" { SignExact(g, y); }
    AfterFixed(g, sign, 1, Hours(), x);
    if |x| >= 1 { HoursExact(g, x[1..]); }
  }

  lemma {:induction false} ZoneExact(g: Rules, s: string)
    ensures Accepts(g, Zone(), s) <==> ZoneText(s)
  {
    hide Accepts, Hours, Sixty, Two;
    var hours := Cat(Alt(Lit("+"), Lit("-")), Hours());
    AcceptsAlt(g, Lit("Z"), Cat(hours, Cat(Lit(":"), Sixty())), s);
    AcceptsLit(g, "Z", s);
    forall x: string ensures Accepts(g, hours, x) <==> |x| == 3 && (x[0] == '+' || x[0] == '-') && TwoDigits(x[1..], 0, 23) { OffsetHours(g, x); }
    AfterFixed(g, hours, 3, Cat(Lit(":"), Sixty()), s);
    if |s| >= 3 {
      assert s[..3][1..] == s[1..3];
      CatLit(g, ":", Sixty(), s[3..]);
      if |s| >= 4 {
        assert s[3..][1..] == s[4..];
        SixtyExact(g, s[4..]);
      }
    }
  }

  // Thousandths are given or not.
  predicate TimeTail(s: string) { ZoneText(s) || (|s| >= 4 && s[0] == '.' && IsDigits(s[1..4]) && ZoneText(s[4..])) }

  predicate TimeText(s: string) {
    |s| >= 8 && TwoDigits(s[..2], 0, 23) && s[2] == ':' && TwoDigits(s[3..5], 0, 59) && s[5] == ':' && TwoDigits(s[6..8], 0, 59) && TimeTail(s[8..])
  }

  lemma {:induction false} PartExact(g: Rules, x: string)
    ensures Accepts(g, Cat(Lit("."), Digits(3)), x) <==> |x| == 4 && x[0] == '.' && IsDigits(x[1..])
  {
    hide Accepts;
    CatLit(g, ".", Digits(3), x);
    if "." <= x { DigitsExact(g, 3, Some(3), x[1..]); }
  }

  lemma {:induction false} AfterOptional(g: Rules, e: Expr, r: Expr, s: string)
    ensures Accepts(g, Cat(Optional(e), r), s) <==> Accepts(g, r, s) || Accepts(g, Cat(e, r), s)
  {
    hide Accepts;
    AcceptsCat(g, Optional(e), r, s);
    AcceptsCat(g, e, r, s);
    assert s[..0] == "" && s[0..] == s;
    forall i | 0 <= i <= |s| ensures Accepts(g, Optional(e), s[..i]) <==> i == 0 || Accepts(g, e, s[..i]) { AcceptsOptional(g, e, s[..i]); }
  }

  lemma {:induction false} TimeTailExact(g: Rules, s: string)
    ensures Accepts(g, Cat(Optional(Cat(Lit("."), Digits(3))), Zone()), s) <==> TimeTail(s)
  {
    hide Accepts, Zone, ZoneText;
    var part := Cat(Lit("."), Digits(3));
    AfterOptional(g, part, Zone(), s);
    ZoneExact(g, s);
    forall x: string ensures Accepts(g, part, x) <==> |x| == 4 && x[0] == '.' && IsDigits(x[1..]) { PartExact(g, x); }
    AfterFixed(g, part, 4, Zone(), s);
    if |s| >= 4 {
      assert s[..4][1..] == s[1..4];
      ZoneExact(g, s[4..]);
    }
  }

  // Two digits and a colon.
  lemma {:induction false} ColonAfter(g: Rules, e: Expr, lo: int, hi: int, x: string)
    requires forall y: string :: Accepts(g, e, y) <==> TwoDigits(y, lo, hi)
    ensures Accepts(g, Cat(e, Lit(":")), x) <==> |x| == 3 && TwoDigits(x[..2], lo, hi) && x[2] == ':'
  {
    hide Accepts, Two;
    AfterFixed(g, e, 2, Lit(":"), x);
    if |x| >= 2 { AcceptsLit(g, ":", x[2..]); }
  }

  lemma {:induction false} TimeExact(g: Rules, s: string)
    ensures Accepts(g, TimeRule().content, s) <==> TimeText(s)
  {
    hide Accepts, Hours, Sixty, Zone, TimeTail, Two;
    var tail := Cat(Optional(Cat(Lit("."), Digits(3))), Zone());
    var hours, minutes := Cat(Hours(), Lit(":")), Cat(Sixty(), Lit(":"));
    forall x: string ensures Accepts(g, Hours(), x) <==> TwoDigits(x, 0, 23) { HoursExact(g, x); }
    forall x: string ensures Accepts(g, Sixty(), x) <==> TwoDigits(x, 0, 59) { SixtyExact(g, x); }
    forall x: string ensures Accepts(g, hours, x) <==> |x| == 3 && TwoDigits(x[..2], 0, 23) && x[2] == ':' { ColonAfter(g, Hours(), 0, 23, x); }
    forall x: string ensures Accepts(g, minutes, x) <==> |x| == 3 && TwoDigits(x[..2], 0, 59) && x[2] == ':' { ColonAfter(g, Sixty(), 0, 59, x); }
    AfterFixed(g, hours, 3, Cat(minutes, Cat(Sixty(), tail)), s);
    if |s| >= 3 {
      assert s[..3][..2] == s[..2];
      AfterFixed(g, minutes, 3, Cat(Sixty(), tail), s[3..]);
      if |s| >= 6 {
        assert s[3..][..3] == s[3..6] && s[3..6][..2] == s[3..5];
        assert s[3..][3..] == s[6..];
        AfterFixed(g, Sixty(), 2, tail, s[6..]);
        if |s| >= 8 {
          assert s[6..][..2] == s[6..8] && s[6..][2..] == s[8..];
          TimeTailExact(g, s[8..]);
        }
      }
    }
  }

  ghost predicate Holds(g: Rules, name: string, b: Builtin) { name in g && g[name] == b.content }

  // The date, "T" and the time.
  predicate DateTimeText(s: string) { |s| >= 11 && DateText(s[..10]) && s[10] == 'T' && TimeText(s[11..]) }

  lemma {:induction false} DateTimeExact(g: Rules, s: string)
    requires Holds(g, "date", DateRule()) && Holds(g, "time", TimeRule())
    ensures Accepts(g, DateTimeRule().content, s) <==> DateTimeText(s)
  {
    hide Accepts, DateRule, TimeRule, TimeText;
    forall x: string ensures Accepts(g, Ref("date"), x) <==> DateText(x) { AcceptsRef(g, "date", x); DateExact(g, x); }
    hide DateText;
    forall x: string | DateText(x) ensures |x| == 10 { DateWidth(x); }
    AfterFixed(g, Ref("date"), 10, Cat(Lit("T"), Ref("time")), s);
    if |s| >= 10 {
      CatLit(g, "T", Ref("time"), s[10..]);
      if |s| >= 11 {
        assert s[10..][1..] == s[11..];
        AcceptsRef(g, "time", s[11..]);
        TimeExact(g, s[11..]);
      }
    }
  }

  lemma {:induction false} DateWidth(x: string)
    requires DateText(x)
    ensures |x| == 10
  {
  }

  // ---------- quoted texts ----------

  // Something between quotes, white space behind them.
  lemma {:induction false} QuotedExact(g: Rules, e: Expr, t: string)
    requires HasSpaceRule(g)
    ensures Accepts(g, Quoted(e), t) <==> exists body, sp :: KeyParts(t, body, sp) && Accepts(g, e, body)
  {
    hide Accepts, KeyParts;
    forall x: string ensures Accepts(g, Lit("\""), x) <==> x == "\"" { QuoteLit(g, x); }
    QuotesExact(g, Lit("\""), e, Lit("\""), t);
  }

  // A JSON string, white space behind it.
  ghost predicate StringText(t: string) { exists body, sp :: KeyParts(t, body, sp) && NotStrings.CharText(body) }

  lemma {:induction false} StringExact(g: Rules, t: string)
    requires HasSpaceRule(g) && NotStrings.HasCharRule(g)
    ensures Accepts(g, StringRule().content, t) <==> StringText(t)
  {
    hide Accepts, NotStrings.CharText, KeyParts;
    AnyKeyExact(g, t);
    if StringText(t) {
      var body, sp :| KeyParts(t, body, sp) && NotStrings.CharText(body);
      assert ExtraBody([], body);
    }
    if body, sp :| KeyParts(t, body, sp) && ExtraBody([], body) { assert NotStrings.CharText(body); }
  }

  // 36 characters: hexadecimal digits and four hyphens.
  predicate UuidText(s: string) {
    |s| == 36 && forall i :: 0 <= i < 36 ==> if i == 8 || i == 13 || i == 18 || i == 23 then s[i] == '-' else NotStrings.IsHex(s[i])
  }

  lemma {:induction false} HexExact(g: Rules, n: nat, x: string)
    ensures Accepts(g, Hex(n), x) <==> |x| == n && NotStrings.AllHex(x)
  {
    AcceptsRepClass(g, NotStrings.HEX_RANGES, false, n, Some(n), x);
    hide Accepts;
    forall i | 0 <= i < |x| ensures InClass(x[i], NotStrings.HEX_RANGES) <==> NotStrings.IsHex(x[i]) { NotStrings.InHexClass(x[i]); }
  }

  // Hexadecimal digits and a hyphen.
  lemma {:induction false} HexHyphen(g: Rules, n: nat, x: string)
    ensures Accepts(g, Cat(Hex(n), Lit("-")), x) <==> |x| == n + 1 && NotStrings.AllHex(x[..n]) && x[n] == '-'
  {
    hide Accepts;
    forall y: string ensures Accepts(g, Hex(n), y) <==> |y| == n && NotStrings.AllHex(y) { HexExact(g, n, y); }
    AfterFixed(g, Hex(n), n, Lit("-"), x);
    if |x| >= n { AcceptsLit(g, "-", x[n..]); }
  }

  lemma {:induction false} HexStep(g: Rules, n: nat, r: Expr, s: string)
    ensures Accepts(g, Cat(Cat(Hex(n), Lit("-")), r), s) <==> |s| >= n + 1 && NotStrings.AllHex(s[..n]) && s[n] == '-' && Accepts(g, r, s[n + 1..])
  {
    hide Accepts, NotStrings.AllHex;
    var e := Cat(Hex(n), Lit("-"));
    forall x: string ensures Accepts(g, e, x) <==> |x| == n + 1 && NotStrings.AllHex(x[..n]) && x[n] == '-' { HexHyphen(g, n, x); }
    AfterFixed(g, e, n + 1, r, s);
    if |s| >= n + 1 { assert s[..n + 1][..n] == s[..n]; }
  }

  lemma {:induction false} HexThen(g: Rules, n: nat, r: Expr, s: string)
    ensures Accepts(g, Cat(Hex(n), Cat(Lit("-"), r)), s) <==> |s| >= n + 1 && NotStrings.AllHex(s[..n]) && s[n] == '-' && Accepts(g, r, s[n + 1..])
  {
    hide Accepts, NotStrings.AllHex;
    forall y: string ensures Accepts(g, Hex(n), y) <==> |y| == n && NotStrings.AllHex(y) { HexExact(g, n, y); }
    AfterFixed(g, Hex(n), n, Cat(Lit("-"), r), s);
    if |s| >= n {
      CatLit(g, "-", r, s[n..]);
      if |s| > n { assert s[n..][1..] == s[n + 1..]; }
    }
  }

  const UUID_TAIL := Cat(Cat(Hex(4), Lit("-")), Cat(Cat(Hex(4), Lit("-")), Cat(Hex(4), Cat(Lit("-"), Hex(12)))))

  lemma {:induction false} UuidTail(g: Rules, s: string)
    ensures Accepts(g, UUID_TAIL, s)
            <==> |s| == 27 && NotStrings.AllHex(s[..4]) && s[4] == '-' && NotStrings.AllHex(s[5..9]) && s[9] == '-' && NotStrings.AllHex(s[10..14]) && s[14] == '-'
                 && NotStrings.AllHex(s[15..])
  {
    hide Accepts, NotStrings.AllHex, Hex;
    var last := Cat(Hex(4), Cat(Lit("-"), Hex(12)));
    HexStep(g, 4, Cat(Cat(Hex(4), Lit("-")), last), s);
    if |s| >= 5 {
      HexStep(g, 4, last, s[5..]);
      if |s| >= 10 {
        assert s[5..][..4] == s[5..9] && s[5..][5..] == s[10..];
        HexThen(g, 4, Hex(12), s[10..]);
        if |s| >= 15 {
          assert s[10..][..4] == s[10..14] && s[10..][5..] == s[15..];
          HexExact(g, 12, s[15..]);
        }
      }
    }
  }

  lemma {:induction false} UuidBody(g: Rules, s: string)
    ensures Accepts(g, Cat(Cat(Hex(8), Lit("-")), UUID_TAIL), s) <==> UuidText(s)
  {
    hide Accepts, NotStrings.IsHex, Hex;
    HexStep(g, 8, UUID_TAIL, s);
    if |s| >= 9 {
      UuidTail(g, s[9..]);
      if |s| == 36 { UuidSlices(s); }
    }
  }

  lemma {:induction false} UuidSlices(s: string)
    requires |s| == 36
    ensures UuidText(s)
            <==> NotStrings.AllHex(s[..8]) && s[8] == '-' && NotStrings.AllHex(s[9..][..4]) && s[9..][4] == '-' && NotStrings.AllHex(s[9..][5..9])
                 && s[9..][9] == '-' && NotStrings.AllHex(s[9..][10..14]) && s[9..][14] == '-' && NotStrings.AllHex(s[9..][15..])
  {
    hide NotStrings.IsHex;
    assert s[9..][..4] == s[9..13] && s[9..][5..9] == s[14..18] && s[9..][10..14] == s[19..23] && s[9..][15..] == s[24..];
  }

  lemma {:induction false} UuidExact(g: Rules, t: string)
    requires HasSpaceRule(g)
    ensures Accepts(g, UuidRule().content, t) <==> exists body, sp :: KeyParts(t, body, sp) && UuidText(body)
  {
    hide Accepts, KeyParts, UuidText, Hex;
    var e := Cat(Cat(Hex(8), Lit("-")), UUID_TAIL);
    assert UuidRule().content == Quoted(e);
    hide Quoted;
    QuotedExact(g, e, t);
    forall x: string ensures Accepts(g, e, x) <==> UuidText(x) { UuidBody(g, x); }
  }

  // ---------- words ----------

  lemma {:induction false} BooleanExact(g: Rules, t: string)
    requires HasSpaceRule(g)
    ensures Accepts(g, BooleanRule().content, t) <==> OneOf(["true", "false"], t)
  {
    hide Accepts, SpaceText;
    var e := Alt(Lit("true"), Lit("false"));
    ThenSpace(g, e, t);
    forall x: string ensures Accepts(g, e, x) <==> x == "true" || x == "false" {
      AcceptsAlt(g, Lit("true"), Lit("false"), x);
      AcceptsLit(g, "true", x);
      AcceptsLit(g, "false", x);
    }
    var words := ["true", "false"];
    if sp :| t == "true" + sp && SpaceText(sp) { assert t == words[0] + sp; }
    if sp :| t == "false" + sp && SpaceText(sp) { assert t == words[1] + sp; }
  }

  lemma {:induction false} NullExact(g: Rules, t: string)
    requires HasSpaceRule(g)
    ensures Accepts(g, NullRule().content, t) <==> OneOf(["null"], t)
  {
    hide Accepts, SpaceText;
    ThenSpace(g, Lit("null"), t);
    forall x: string ensures Accepts(g, Lit("null"), x) <==> x == "null" { AcceptsLit(g, "null", x); }
    if sp :| t == "null" + sp && SpaceText(sp) { assert ["null"][0] == "null"; }
  }

  // ---------- numbers ----------

  // Up to sixteen digits, no zero in front of others.
  predicate IntegralText(x: string) { Canonical(x) && |x| <= 16 }

  predicate IntegerText(x: string) { IntegralText(x) || (x != "" && x[0] == '-' && IntegralText(x[1..])) }

  predicate FractionText(x: string) { x == "" || (2 <= |x| <= 17 && x[0] == '.' && IsDigits(x[1..])) }

  predicate ExponentText(x: string) {
    x == "" || ((x[0] == 'e' || x[0] == 'E') && (IntegralText(x[1..]) || (|x| > 1 && (x[1] == '-' || x[1] == '+') && IntegralText(x[2..]))))
  }

  predicate NumberParts(x: string, a: string, b: string, c: string) { x == a + (b + c) && IntegerText(a) && FractionText(b) && ExponentText(c) }

  ghost predicate NumberText(x: string) { exists a, b, c :: NumberParts(x, a, b, c) }

  lemma {:induction false} IntegralExact(g: Rules, x: string)
    ensures Accepts(g, IntegralPartRule().content, x) <==> IntegralText(x)
  {
    hide Accepts;
    var long := Cat(Between('1', '9'), Rep(Digit(), 0, Some(15)));
    AcceptsAlt(g, Between('0', '0'), long, x);
    BetweenExact(g, '0', '0', x);
    forall y: string ensures Accepts(g, Between('1', '9'), y) <==> |y| == 1 && '1' <= y[0] <= '9' { BetweenExact(g, '1', '9', y); }
    AfterFixed(g, Between('1', '9'), 1, Rep(Digit(), 0, Some(15)), x);
    if |x| >= 1 {
      DigitsExact(g, 0, Some(15), x[1..]);
      assert x == [x[0]] + x[1..];
    }
  }

  ghost predicate NumberRules(g: Rules) { Holds(g, "integral-part", IntegralPartRule()) && Holds(g, "decimal-part", DecimalPartRule()) }

  lemma {:induction false} SignedExact(g: Rules, x: string)
    requires Holds(g, "integral-part", IntegralPartRule())
    ensures Accepts(g, Cat(Optional(Lit("-")), Ref("integral-part")), x) <==> IntegerText(x)
  {
    hide Accepts, IntegralPartRule, IntegralText;
    AfterOptional(g, Lit("-"), Ref("integral-part"), x);
    AcceptsRef(g, "integral-part", x);
    IntegralExact(g, x);
    CatLit(g, "-", Ref("integral-part"), x);
    if x != "" {
      AcceptsRef(g, "integral-part", x[1..]);
      IntegralExact(g, x[1..]);
    }
  }

  // Three in a row, however they are grouped.
  lemma {:induction false} Regrouped(g: Rules, a: Expr, b: Expr, c: Expr, s: string)
    ensures Accepts(g, Cat(Cat(a, b), c), s) <==> Accepts(g, Cat(a, Cat(b, c)), s)
  {
    hide Accepts;
    if Accepts(g, Cat(Cat(a, b), c), s) {
      var i := CatSplit(g, Cat(a, b), c, s);
      var j := CatSplit(g, a, b, s[..i]);
      CatJoin(g, b, c, s[..i][j..], s[i..]);
      CatJoin(g, a, Cat(b, c), s[..i][..j], s[..i][j..] + s[i..]);
      assert s == s[..i][..j] + (s[..i][j..] + s[i..]);
    }
    if Accepts(g, Cat(a, Cat(b, c)), s) {
      var i := CatSplit(g, a, Cat(b, c), s);
      var j := CatSplit(g, b, c, s[i..]);
      CatJoin(g, a, b, s[..i], s[i..][..j]);
      CatJoin(g, Cat(a, b), c, s[..i] + s[i..][..j], s[i..][j..]);
      assert s == (s[..i] + s[i..][..j]) + s[i..][j..];
    }
  }

  lemma {:induction false} IntegerExact(g: Rules, t: string)
    requires HasSpaceRule(g) && Holds(g, "integral-part", IntegralPartRule())
    ensures Accepts(g, IntegerRule().content, t) <==> exists x, sp :: t == x + sp && IntegerText(x) && SpaceText(sp)
  {
    hide Accepts, IntegralPartRule, SpaceText, IntegerText;
    var e := Cat(Optional(Lit("-")), Ref("integral-part"));
    Regrouped(g, Optional(Lit("-")), Ref("integral-part"), Space(), t);
    ThenSpace(g, e, t);
    forall x: string ensures Accepts(g, e, x) <==> IntegerText(x) { SignedExact(g, x); }
  }

  lemma {:induction false} FractionExact(g: Rules, x: string)
    requires Holds(g, "decimal-part", DecimalPartRule())
    ensures Accepts(g, Optional(Cat(Lit("."), Ref("decimal-part"))), x) <==> FractionText(x)
  {
    hide Accepts;
    AcceptsOptional(g, Cat(Lit("."), Ref("decimal-part")), x);
    CatLit(g, ".", Ref("decimal-part"), x);
    if x != "" {
      AcceptsRef(g, "decimal-part", x[1..]);
      DigitsExact(g, 1, Some(16), x[1..]);
      assert "." <= x <==> x[0] == '.';
    }
  }

  lemma {:induction false} OneOfTwo(g: Rules, a: char, b: char, x: string)
    ensures Accepts(g, Class([(a, a), (b, b)], false), x) <==> |x| == 1 && (x[0] == a || x[0] == b)
  {
    var rs := [(a, a), (b, b)];
    AcceptsClass(g, rs, false, x);
    hide Accepts;
    if |x| == 1 { assert rs[0] == (a, a) && rs[1] == (b, b); }
  }

  lemma {:induction false} ExponentExact(g: Rules, x: string)
    requires Holds(g, "integral-part", IntegralPartRule())
    ensures Accepts(g, Optional(Cat3(Class([('e', 'e'), ('E', 'E')], false), Optional(Class([('-', '-'), ('+', '+')], false)), Ref("integral-part"))), x)
            <==> ExponentText(x)
  {
    hide Accepts, IntegralText, IntegralPartRule;
    var mark, sign, digits := Class([('e', 'e'), ('E', 'E')], false), Class([('-', '-'), ('+', '+')], false), Ref("integral-part");
    AcceptsOptional(g, Cat(mark, Cat(Optional(sign), digits)), x);
    forall y: string ensures Accepts(g, mark, y) <==> |y| == 1 && (y[0] == 'e' || y[0] == 'E') { OneOfTwo(g, 'e', 'E', y); }
    forall y: string ensures Accepts(g, sign, y) <==> |y| == 1 && (y[0] == '-' || y[0] == '+') { OneOfTwo(g, '-', '+', y); }
    forall y: string ensures Accepts(g, digits, y) <==> IntegralText(y) { AcceptsRef(g, "integral-part", y); IntegralExact(g, y); }
    AfterFixed(g, mark, 1, Cat(Optional(sign), digits), x);
    if x != "" {
      AfterOptional(g, sign, digits, x[1..]);
      AfterFixed(g, sign, 1, digits, x[1..]);
      if |x| > 1 { assert x[1..][1..] == x[2..]; }
    }
  }

  lemma {:induction false} NumberExact(g: Rules, t: string)
    requires HasSpaceRule(g) && NumberRules(g)
    ensures Accepts(g, NumberRule().content, t) <==> exists x, sp :: t == x + sp && NumberText(x) && SpaceText(sp)
  {
    hide Accepts, SpaceText, NumberText, IntegralPartRule, DecimalPartRule;
    var minus, digits := Optional(Lit("-")), Ref("integral-part");
    var fraction := Optional(Cat(Lit("."), Ref("decimal-part")));
    var exponent := Optional(Cat3(Class([('e', 'e'), ('E', 'E')], false), Optional(Class([('-', '-'), ('+', '+')], false)), Ref("integral-part")));
    var e := Cat(Cat(minus, digits), Cat(fraction, exponent));
    assert NumberRule().content == Cat(minus, Cat(digits, Cat(fraction, Cat(exponent, Space()))));
    hide Optional, Cat3;
    forall x: string ensures Accepts(g, e, x) <==> NumberText(x) { NumberBody(g, x); }
    Fourfold(g, minus, digits, fraction, exponent, Space(), t);
    ThenSpace(g, e, t);
  }

  lemma {:induction false} NumberBody(g: Rules, x: string)
    requires NumberRules(g)
    ensures Accepts(g, Cat(Cat(Optional(Lit("-")), Ref("integral-part")),
                           Cat(Optional(Cat(Lit("."), Ref("decimal-part"))),
                               Optional(Cat3(Class([('e', 'e'), ('E', 'E')], false), Optional(Class([('-', '-'), ('+', '+')], false)), Ref("integral-part"))))), x)
            <==> NumberText(x)
  {
    hide Accepts, IntegralPartRule, DecimalPartRule, IntegerText, FractionText, ExponentText;
    var whole := Cat(Optional(Lit("-")), Ref("integral-part"));
    var fraction := Optional(Cat(Lit("."), Ref("decimal-part")));
    var exponent := Optional(Cat3(Class([('e', 'e'), ('E', 'E')], false), Optional(Class([('-', '-'), ('+', '+')], false)), Ref("integral-part")));
    forall y: string ensures Accepts(g, whole, y) <==> IntegerText(y) { SignedExact(g, y); }
    forall y: string ensures Accepts(g, fraction, y) <==> FractionText(y) { FractionExact(g, y); }
    forall y: string ensures Accepts(g, exponent, y) <==> ExponentText(y) { ExponentExact(g, y); }
    hide Optional, Cat3;
    ThreeTexts(g, whole, fraction, exponent, x);
    if p, q, r :| x == p + (q + r) && Accepts(g, whole, p) && Accepts(g, fraction, q) && Accepts(g, exponent, r) { assert NumberParts(x, p, q, r); }
    if p, q, r :| NumberParts(x, p, q, r) { assert Accepts(g, whole, p) && Accepts(g, fraction, q) && Accepts(g, exponent, r); }
  }

  lemma {:induction false} ThreeTexts(g: Rules, a: Expr, b: Expr, c: Expr, x: string)
    ensures Accepts(g, Cat(a, Cat(b, c)), x) <==> exists p, q, r :: x == p + (q + r) && Accepts(g, a, p) && Accepts(g, b, q) && Accepts(g, c, r)
  {
    hide Accepts;
    if Accepts(g, Cat(a, Cat(b, c)), x) {
      var i := CatSplit(g, a, Cat(b, c), x);
      var j := CatSplit(g, b, c, x[i..]);
      assert x == x[..i] + (x[i..][..j] + x[i..][j..]);
    }
    if p, q, r :| x == p + (q + r) && Accepts(g, a, p) && Accepts(g, b, q) && Accepts(g, c, r) {
      CatJoin(g, b, c, q, r);
      CatJoin(g, a, Cat(b, c), p, q + r);
    }
  }

  lemma {:induction false} Fourfold(g: Rules, a: Expr, b: Expr, c: Expr, d: Expr, e: Expr, t: string)
    ensures Accepts(g, Cat(a, Cat(b, Cat(c, Cat(d, e)))), t) <==> Accepts(g, Cat(Cat(Cat(a, b), Cat(c, d)), e), t)
  {
    hide Accepts;
    Regrouped(g, Cat(a, b), Cat(c, d), e, t);
    Regrouped(g, a, b, Cat(c, Cat(d, e)), t);
    forall x: string ensures Accepts(g, Cat(Cat(c, d), e), x) <==> Accepts(g, Cat(c, Cat(d, e)), x) { Regrouped(g, c, d, e, x); }
    SameTail(g, Cat(a, b), Cat(Cat(c, d), e), Cat(c, Cat(d, e)), t);
  }

  // ---------- quoted formats ----------

  ghost predicate QuotedUuid(t: string) { exists body, sp :: KeyParts(t, body, sp) && UuidText(body) }

  ghost predicate QuotedDate(t: string) { exists body, sp :: KeyParts(t, body, sp) && DateText(body) }

  ghost predicate QuotedTime(t: string) { exists body, sp :: KeyParts(t, body, sp) && TimeText(body) }

  ghost predicate QuotedDateTime(t: string) { exists body, sp :: KeyParts(t, body, sp) && DateTimeText(body) }
}
