/** What healing keeps: everything, unless the input stops inside a number or constant, or right behind one
    that might have gone on. */
module JsonKept {
  import opened Basics
  import opened JsonHeal
  import opened JsonHealing
  import opened JsonDocuments

  // ---------- numbers and constants (section 6 of RFC 8259) ----------

  predicate Digit(c: char) { '0' <= c <= '9' }

  predicate Digits(s: string) { s != "" && forall i :: 0 <= i < |s| ==> Digit(s[i]) }

  predicate IntPart(s: string) { Digits(s) && (s == "0" || s[0] != '0') }

  predicate FracPart(s: string) { s == "" || (s[0] == '.' && Digits(s[1..])) }

  predicate ExpPart(s: string) {
    s == "" || ((s[0] == 'e' || s[0] == 'E') && (Digits(s[1..]) || (|s| > 1 && (s[1] == '+' || s[1] == '-') && Digits(s[2..]))))
  }

  predicate NumberOf(w: string, minus: string, digits: string, frac: string, exp: string) {
    w == minus + digits + frac + exp && (minus == "" || minus == "-") && IntPart(digits) && FracPart(frac) && ExpPart(exp)
  }

  ghost predicate Number(w: string) { exists minus, digits, frac, exp :: NumberOf(w, minus, digits, frac, exp) }

  ghost predicate WordText(w: string) { w == "true" || w == "false" || w == "null" || Number(w) }

  predicate NumberChar(c: char) { Digit(c) || c in {'-', '+', '.', 'e', 'E'} }

  lemma {:induction false} PartChars(minus: string, digits: string, frac: string, exp: string)
    requires (minus == "" || minus == "-") && IntPart(digits) && FracPart(frac) && ExpPart(exp)
    ensures forall i :: 0 <= i < |minus| ==> NumberChar(minus[i])
    ensures forall i :: 0 <= i < |digits| ==> NumberChar(digits[i])
    ensures forall i :: 0 <= i < |frac| ==> NumberChar(frac[i])
    ensures forall i :: 0 <= i < |exp| ==> NumberChar(exp[i])
    ensures Digit(digits[|digits| - 1]) && (frac != "" ==> Digit(frac[|frac| - 1])) && (exp != "" ==> Digit(exp[|exp| - 1]))
  {
    assert forall i :: 0 < i < |frac| ==> frac[i] == frac[1..][i - 1];
    assert forall i :: 1 < i < |exp| ==> exp[i] == exp[1..][i - 1] == exp[2..][i - 2];
    if exp != "" {
      if Digits(exp[1..]) { assert exp[|exp| - 1] == exp[1..][|exp| - 2]; } else { assert exp[|exp| - 1] == exp[2..][|exp| - 3]; }
    }
  }

  predicate Numeric(s: string) { forall i :: 0 <= i < |s| ==> NumberChar(s[i]) }

  lemma {:induction false} NumericJoin(a: string, b: string)
    requires Numeric(a) && Numeric(b)
    ensures Numeric(a + b)
  {
    hide NumberChar;
  }

  lemma {:induction false} LastOf(a: string, b: string)
    ensures b != "" ==> a + b != "" && (a + b)[|a + b| - 1] == b[|b| - 1]
    ensures b == "" ==> a + b == a
  {
  }

  // A number is made of a few characters, begins with a digit or a minus sign and ends in a digit.
  lemma {:induction false} NumberShape(w: string)
    requires Number(w)
    ensures w != "" && Digit(w[|w| - 1]) && (w[0] == '-' || Digit(w[0])) && Numeric(w)
  {
    var minus, digits, frac, exp :| NumberOf(w, minus, digits, frac, exp);
    PartChars(minus, digits, frac, exp);
    assert digits != "" && Digit(digits[0]);
    hide IntPart, FracPart, ExpPart, NumberChar, Digit;
    var a, b := minus + digits, minus + digits + frac;
    NumericJoin(minus, digits);
    NumericJoin(a, frac);
    NumericJoin(b, exp);
    LastOf(minus, digits);
    LastOf(a, frac);
    LastOf(b, exp);
    assert w[0] == a[0] && a[0] == if minus == "" then digits[0] else minus[0];
  }

  // Every number begins a longer one: a digit more, or a fraction.
  lemma {:induction false} NumberGoesOn(w: string) returns (more: string)
    requires Number(w)
    ensures more != "" && Number(w + more)
  {
    var minus, digits, frac, exp :| NumberOf(w, minus, digits, frac, exp);
    if exp != "" {
      more := "0";
      if Digits(exp[1..]) { assert (exp + "0")[1..] == exp[1..] + "0"; } else { assert (exp + "0")[2..] == exp[2..] + "0"; }
      assert w + more == minus + digits + frac + (exp + "0");
      assert NumberOf(w + more, minus, digits, frac, exp + "0");
    } else if frac != "" {
      more := "0";
      assert (frac + "0")[1..] == frac[1..] + "0";
      assert w + more == minus + digits + (frac + "0") + "";
      assert NumberOf(w + more, minus, digits, frac + "0", "");
    } else {
      more := ".0";
      assert ".0"[1..] == "0";
      assert w + more == minus + digits + ".0" + "";
      assert NumberOf(w + more, minus, digits, ".0", "");
    }
  }

  // A constant begins no longer word.
  lemma {:induction false} ConstantEnds(w: string, more: string)
    requires w == "true" || w == "false" || w == "null"
    requires WordText(w + more)
    ensures more == ""
  {
    var v := w + more;
    assert v[0] == w[0];
    if Number(v) {
      NumberShape(v);
      assert false;
    }
    assert |v| == 4 || |v| == 5;
    assert v[..|w|] == w;
  }

  // ---------- what is kept ----------

  ghost predicate JsonWords(ts: seq<Token>) { forall i :: 0 <= i < |ts| && ts[i].Word? ==> WordText(ts[i].text) }

  // Whole words, and behind them perhaps the beginning of one.
  ghost predicate JsonInput(x: Input) { JsonWords(x.tokens) && (x.tail.InWord? ==> PlainWord(x.tail.part)) }

  // The input stops, without white space, right behind a word other than "null".
  predicate StopsOnWord(x: Input) {
    x.tail == Whole(false) && x.tokens != [] && x.tokens[|x.tokens| - 1].Word? && x.tokens[|x.tokens| - 1].text != "null"
  }

  lemma {:induction false} NumericPlain(w: string)
    requires Numeric(w) && w != ""
    ensures PlainWord(w)
  {
    forall i | 0 <= i < |w| ensures !IsSpace(w[i]) && w[i] !in {'{', '}', '[', ']', ':', ',', '"', '\\'} {
      assert NumberChar(w[i]);
    }
  }

  lemma {:induction false} WordsArePlain(x: Input)
    requires JsonInput(x)
    ensures WordsPlain(x)
  {
    forall i | 0 <= i < |x.tokens| && x.tokens[i].Word? ensures PlainWord(x.tokens[i].text) {
      var w := x.tokens[i].text;
      assert WordText(w);
      if Number(w) {
        NumberShape(w);
        NumericPlain(w);
      }
    }
  }

  lemma {:induction false} LastCharOfWord(x: Input, w: string)
    requires x.tail.Whole? && x.tokens != [] && x.tokens[|x.tokens| - 1] == Word(w) && WordText(w)
    ensures LastChar(x) == w[|w| - 1]
    ensures w == "null" <==> !(Digit(w[|w| - 1]) || w[|w| - 1] in {'.', 'e', 'E', '-'})
  {
    if Number(w) { NumberShape(w); }
    LastIs(w);
    hide LastNonSpace;
  }

  // The source's test for an unfinished number.
  lemma {:induction false} MaybeIsStop(x: Input)
    requires JsonInput(x) && x.tail.Whole? && x.tokens != []
    ensures MaybeNumber(x) <==> StopsOnWord(x)
  {
    WordsArePlain(x);
    LastCharWhole(x);
    var t := x.tokens[|x.tokens| - 1];
    if t.Word? { LastCharOfWord(x, t.text); }
    hide LastChar, WordsPlain;
  }

  // Main result: inside a container healing keeps the input as it is, unless the input stops inside a word
  // or right behind one other than "null"; then it drops exactly that word.
  lemma {:induction false} KeptExact(x: Input, marker: string)
    requires Viable(x) && JsonInput(x) && Run(START, x.tokens).value.stack != []
    ensures x.tokens != []
    ensures var o := Heal(x, Run(START, x.tokens).value.stack, marker);
            && o.Heals?
            && o.h.kept == if x.tail.InWord? then Input(x.tokens, Whole(false))
                           else if StopsOnWord(x) then Input(x.tokens[..|x.tokens| - 1], Whole(false))
                           else x
  {
    WordsArePlain(x);
    hide Run, Heal, Works, Viable, MaybeNumber, WordsPlain, JsonInput, StopsOnWord;
    HealingWorks(x, marker);
    if x.tail.Whole? { MaybeIsStop(x); }
    NoWholeNoStop(x);
  }

  lemma {:induction false} NoWholeNoStop(x: Input)
    ensures StopsOnWord(x) ==> x.tail.Whole?
  {
  }

  // The word dropped is a number, which might have gone on, or a constant, which could not: "[true" loses it.
  lemma {:induction false} DroppedWord(x: Input)
    requires JsonInput(x) && StopsOnWord(x)
    ensures var w := x.tokens[|x.tokens| - 1].text;
            (exists more :: more != "" && WordText(w + more)) <==> w != "true" && w != "false"
  {
    var w := x.tokens[|x.tokens| - 1].text;
    assert WordText(w);
    if w == "true" || w == "false" {
      forall more | WordText(w + more) ensures more == "" { ConstantEnds(w, more); }
    } else {
      var more := NumberGoesOn(w);
      assert WordText(w + more);
    }
  }

  lemma {:induction false} ArrayOpened(w: string)
    ensures Run(START, [LBracket, Word(w)]) == Some(PState([Array], CommaOrClose))
  {
    assert [] + [Array] == [Array];
    assert Step(START, LBracket) == Some(PState([Array], ValueOrClose));
    hide Run;
    RunCons(START, LBracket, [Word(w)], PState([Array], ValueOrClose));
    RunOne(PState([Array], ValueOrClose), Word(w));
    assert [LBracket] + [Word(w)] == [LBracket, Word(w)];
  }

  // "[true" loses the constant, "[null" keeps it.
  lemma {:induction false} ConstantDropped(marker: string)
    ensures var x := Input([LBracket, Word("true")], Whole(false));
            Heal(x, [Array], marker).Heals? && Heal(x, [Array], marker).h.kept == Input([LBracket], Whole(false))
    ensures var x := Input([LBracket, Word("null")], Whole(false));
            Heal(x, [Array], marker).Heals? && Heal(x, [Array], marker).h.kept == x
  {
    ArrayOpened("true");
    ArrayOpened("null");
    var x, y := Input([LBracket, Word("true")], Whole(false)), Input([LBracket, Word("null")], Whole(false));
    assert JsonInput(x) && JsonInput(y);
    hide Run, Heal;
    KeptExact(x, marker);
    KeptExact(y, marker);
    assert x.tokens[..1] == [LBracket];
  }

  // ---------- cuts of documents ----------

  // Behind `k` tokens, or inside the next one; a number may be cut so that a shorter one remains.
  ghost predicate CutInside(ts: seq<Token>, x: Input, k: int) {
    && 0 <= k < |ts|
    && match x.tail
       case Whole(space) => x.tokens == ts[..k] || (!space && ts[k].Word? && exists w :: Shortened(ts[k].text, w) && x.tokens == ts[..k] + [Word(w)])
       case InWord(_) => x.tokens == ts[..k] && ts[k].Word?
       case _ => x.tokens == ts[..k] && ts[k].Str?
  }

  ghost predicate Shortened(text: string, w: string) { w < text && WordText(w) }

  // Whatever is kept of a cut document stands in the document: no number that was cut short survives.
  lemma {:induction false} KeptOfDocument(j: Json, x: Input, k: int, marker: string)
    requires WellFormed(j) && JsonWords(Text(j)) && CutInside(Text(j), x, k) && (x.tail.InWord? ==> PlainWord(x.tail.part))
    ensures Run(START, x.tokens).Some?
    ensures var stack := Run(START, x.tokens).value.stack;
            stack != [] ==> var o := Heal(x, stack, marker); o.Heals? && o.h.kept.tokens <= Text(j)
  {
    var ts := Text(j);
    hide Text, WordText, Heal, Viable;
    CutIsCut(ts, x, k);
    ValidIsDocument(ts);
    CutIsViable(ts, x);
    CutWords(ts, x, k);
    ViableRuns(x);
    hide Run;
    if Run(START, x.tokens).value.stack != [] {
      KeptExact(x, marker);
      if x.tokens != ts[..k] {
        ShortenedStops(ts, x, k);
        assert x.tokens[..|x.tokens| - 1] == ts[..k];
      }
    }
  }

  lemma {:induction false} CutIsCut(ts: seq<Token>, x: Input, k: int)
    requires CutInside(ts, x, k)
    ensures CutOf(ts, x)
  {
    hide WordText;
    assert CutAt(ts, x, k);
  }

  lemma {:induction false} CutWords(ts: seq<Token>, x: Input, k: int)
    requires CutInside(ts, x, k) && JsonWords(ts) && (x.tail.InWord? ==> PlainWord(x.tail.part))
    ensures JsonInput(x)
  {
    hide WordText, PlainWord;
    assert forall i :: 0 <= i < k ==> ts[..k][i] == ts[i];
  }

  // A number cut short is a word other than "null".
  lemma {:induction false} ShortenedStops(ts: seq<Token>, x: Input, k: int)
    requires CutInside(ts, x, k) && JsonWords(ts) && x.tokens != ts[..k]
    ensures StopsOnWord(x) && |x.tokens| == k + 1 && x.tokens[..k] == ts[..k]
  {
    hide WordText;
    var w :| Shortened(ts[k].text, w) && x.tokens == ts[..k] + [Word(w)];
    var more := ts[k].text[|w|..];
    assert w + more == ts[k].text && WordText(ts[k].text);
    if w == "null" { ConstantEnds(w, more); }
  }
}
