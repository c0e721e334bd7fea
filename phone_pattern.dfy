/**
 The Russian phone-number pattern of server.js line 21,

   ^(\+7|8|7)?[\s\-]?\(?[0-9]{3}\)?[\s\-]?[0-9]{3}[\s\-]?[0-9]{2}[\s\-]?[0-9]{2}$

 as a hand-written recognizer. Everything after the country prefix is a list of items
 (`BodyPattern`); a string of that shape is a list of pieces, one per item, and the language
 of the pattern is the set of strings `Render(p)` for well-formed shapes `p`. `Parse` is the
 recognizer; `ParseSound` and `ParseComplete` say together that it accepts exactly that
 language and recovers the one shape of each accepted string.

 The items are matched greedily, without backtracking. That loses no match because no
 optional item can consume a character that could also start what follows it
 (`Deterministic`). The prefix alternatives `8` and `7` are digits and could equally start
 the area code, so `Parse` tries the alternatives in the pattern's order and then no prefix,
 as the backtracking matcher of JavaScript does.
 */
module PhonePattern {
  import opened Wrappers
  import opened JsStrings

  /** `[0-9]` */
  predicate IsDigit(c: char) {
    '0' <= c <= '9'
  }

  /** `[\s\-]` */
  predicate IsSeparator(c: char) {
    IsWhitespace(c) || c == '-'
  }

  predicate AllDigits(s: string) {
    forall i | 0 <= i < |s| :: IsDigit(s[i])
  }

  predicate DigitGroup(s: string, n: nat) {
    |s| == n && AllDigits(s)
  }

  function DigitCount(s: string): (n: nat)
    ensures n <= |s|
  {
    if s == [] then 0 else (if IsDigit(s[0]) then 1 else 0) + DigitCount(s[1..])
  }

  // ---- patterns as lists of items ----

  /** `[\s\-]?`, an optional literal such as `\(?`, and `[0-9]{n}`. */
  datatype Item = OptionalSeparator | OptionalChar(c: char) | Digits(n: nat)

  /** The pattern after the country prefix, item by item, anchored at the end. */
  const BodyPattern: seq<Item> := [
    OptionalSeparator, OptionalChar('('), Digits(3), OptionalChar(')'),
    OptionalSeparator, Digits(3), OptionalSeparator, Digits(2), OptionalSeparator, Digits(2)]

  /** Whether `c` can be the first character `item` consumes. */
  predicate Consumes(item: Item, c: char) {
    match item
    case OptionalSeparator => IsSeparator(c)
    case OptionalChar(d) => c == d
    case Digits(n) => n > 0 && IsDigit(c)
  }

  predicate CanBeEmpty(item: Item) {
    !item.Digits? || item.n == 0
  }

  /** Whether `piece` is a text that `item` matches. */
  predicate Fits(item: Item, piece: string) {
    match item
    case OptionalSeparator => piece == [] || (|piece| == 1 && IsSeparator(piece[0]))
    case OptionalChar(d) => piece == [] || piece == [d]
    case Digits(n) => DigitGroup(piece, n)
  }

  predicate FitsAll(items: seq<Item>, pieces: seq<string>) {
    |items| == |pieces| && forall i | 0 <= i < |items| :: Fits(items[i], pieces[i])
  }

  function Concat(pieces: seq<string>): string {
    if pieces == [] then [] else pieces[0] + Concat(pieces[1..])
  }

  /** Whether some text matched by `items` can start with `c`. */
  predicate CanStart(items: seq<Item>, c: char) {
    items != [] && (Consumes(items[0], c) || (CanBeEmpty(items[0]) && CanStart(items[1..], c)))
  }

  /** No optional item can consume a character that could start what follows it. */
  predicate Deterministic(items: seq<Item>) {
    items == [] ||
    (Deterministic(items[1..]) &&
     (!items[0].Digits? ==> forall c :: CanStart(items[1..], c) ==> !Consumes(items[0], c)))
  }

  /** Digits a pattern demands. */
  function PatternDigits(items: seq<Item>): nat {
    if items == [] then 0 else (if items[0].Digits? then items[0].n else 0) + PatternDigits(items[1..])
  }

  // ---- the recognizer ----

  /** How many characters `item` takes from the front of `s`, greedily. */
  function Take(item: Item, s: string): (r: Option<nat>)
    ensures r.Some? ==> r.value <= |s| && Fits(item, s[..r.value])
    ensures r.None? <==> item.Digits? && !(item.n <= |s| && AllDigits(s[..item.n]))
  {
    match item
    case Digits(n) => if n <= |s| && AllDigits(s[..n]) then Some(n) else None
    case _ => if s != [] && Consumes(item, s[0]) then Some(1) else Some(0)
  }

  /** Matches `items` against the whole of `s`; on success, the piece each item took. */
  function MatchItems(items: seq<Item>, s: string): (r: Option<seq<string>>)
    ensures r.Some? ==> FitsAll(items, r.value) && Concat(r.value) == s
  {
    if items == [] then (if s == [] then Some([]) else None)
    else match Take(items[0], s)
      case None => None
      case Some(n) =>
        match MatchItems(items[1..], s[n..])
        case None => None
        case Some(ps) =>
          FitsAllCons(items, s[..n], ps);
          ConcatCons(s[..n], ps);
          assert s == s[..n] + s[n..];
          Some([s[..n]] + ps)
  }

  lemma FitsAllCons(items: seq<Item>, piece: string, pieces: seq<string>)
    requires items != [] && Fits(items[0], piece) && FitsAll(items[1..], pieces)
    ensures FitsAll(items, [piece] + pieces)
  {
    var ps := [piece] + pieces;
    forall i | 0 <= i < |items| ensures Fits(items[i], ps[i]) {
      if i > 0 { assert items[i] == items[1..][i - 1] && ps[i] == pieces[i - 1]; }
    }
  }

  lemma ConcatCons(piece: string, pieces: seq<string>)
    ensures Concat([piece] + pieces) == piece + Concat(pieces)
  {
    assert ([piece] + pieces)[1..] == pieces;
  }

  /** The first character of a matched text is one the pattern can start with. */
  lemma {:induction false} FirstChar(items: seq<Item>, pieces: seq<string>)
    requires FitsAll(items, pieces) && Concat(pieces) != []
    ensures CanStart(items, Concat(pieces)[0])
  {
    var s := Concat(pieces);
    if pieces[0] == [] {
      assert s == Concat(pieces[1..]);
      assert Fits(items[0], pieces[0]);
      assert CanBeEmpty(items[0]);
      FitsAllTail(items, pieces);
      FirstChar(items[1..], pieces[1..]);
    } else {
      assert s[0] == pieces[0][0];
      assert Fits(items[0], pieces[0]);
    }
  }

  lemma FitsAllTail(items: seq<Item>, pieces: seq<string>)
    requires FitsAll(items, pieces) && items != []
    ensures Fits(items[0], pieces[0]) && FitsAll(items[1..], pieces[1..])
  {
    forall i | 0 <= i < |items| - 1 ensures Fits(items[1..][i], pieces[1..][i]) {
      assert Fits(items[i + 1], pieces[i + 1]);
    }
  }

  /** The greedy item `items[0]` takes exactly its own piece from a well-formed text. */
  lemma TakeOwnPiece(items: seq<Item>, pieces: seq<string>)
    requires Deterministic(items) && FitsAll(items, pieces) && items != []
    ensures Take(items[0], Concat(pieces)) == Some(|pieces[0]|)
  {
    var s := Concat(pieces);
    var p := pieces[0];
    var rest := Concat(pieces[1..]);
    assert s == p + rest;
    FitsAllTail(items, pieces);
    match items[0]
    case Digits(n) =>
      assert s[..n] == p;
    case _ =>
      if p == [] {
        if rest != [] {
          FirstChar(items[1..], pieces[1..]);
        }
      } else {
        assert s[0] == p[0];
      }
  }

  /** Completeness of the greedy matcher on a deterministic pattern: it recovers the pieces. */
  lemma {:induction false} MatchItemsComplete(items: seq<Item>, pieces: seq<string>)
    requires Deterministic(items) && FitsAll(items, pieces)
    ensures MatchItems(items, Concat(pieces)) == Some(pieces)
  {
    if items != [] {
      var s := Concat(pieces);
      var n := |pieces[0]|;
      TakeOwnPiece(items, pieces);
      FitsAllTail(items, pieces);
      assert s == pieces[0] + Concat(pieces[1..]);
      assert s[..n] == pieces[0] && s[n..] == Concat(pieces[1..]);
      MatchItemsComplete(items[1..], pieces[1..]);
      assert [pieces[0]] + pieces[1..] == pieces;
    }
  }

  lemma {:induction false} DigitCountAppend(a: string, b: string)
    ensures DigitCount(a + b) == DigitCount(a) + DigitCount(b)
  {
    if a == [] {
      assert a + b == b;
    } else {
      assert (a + b)[0] == a[0];
      assert (a + b)[1..] == a[1..] + b;
      DigitCountAppend(a[1..], b);
    }
  }

  lemma {:induction false} DigitCountOfGroup(d: string)
    requires AllDigits(d)
    ensures DigitCount(d) == |d|
  {
    if d != [] {
      DigitCountOfGroup(d[1..]);
    }
  }

  /** A matched text holds exactly the digits its pattern demands. */
  lemma {:induction false} MatchedDigits(items: seq<Item>, pieces: seq<string>)
    requires FitsAll(items, pieces) && ParenthesisLiterals(items)
    ensures DigitCount(Concat(pieces)) == PatternDigits(items)
  {
    if items != [] {
      FitsAllTail(items, pieces);
      ParenthesisLiteralsTail(items);
      MatchedDigits(items[1..], pieces[1..]);
      DigitCountAppend(pieces[0], Concat(pieces[1..]));
      if items[0].Digits? {
        DigitCountOfGroup(pieces[0]);
      } else if pieces[0] != [] {
        assert pieces[0] == [pieces[0][0]];
      }
    }
  }

  /** The characters a body can contain. */
  predicate BodyChar(c: char) {
    IsDigit(c) || IsSeparator(c) || c == '(' || c == ')'
  }

  /** The optional literals of a pattern are parentheses. */
  predicate ParenthesisLiterals(items: seq<Item>) {
    forall i | 0 <= i < |items| :: items[i].OptionalChar? ==> items[i].c in "()"
  }

  lemma ParenthesisLiteralsTail(items: seq<Item>)
    requires ParenthesisLiterals(items) && items != []
    ensures ParenthesisLiterals(items[1..])
  {
    forall i | 0 <= i < |items| - 1 ensures items[1..][i].OptionalChar? ==> items[1..][i].c in "()" {
      assert items[1..][i] == items[i + 1];
    }
  }

  /** A matched text contains only characters its items admit. */
  lemma {:induction false} MatchedChars(items: seq<Item>, pieces: seq<string>)
    requires FitsAll(items, pieces) && ParenthesisLiterals(items)
    ensures forall c | c in Concat(pieces) :: BodyChar(c)
  {
    if items != [] {
      FitsAllTail(items, pieces);
      ParenthesisLiteralsTail(items);
      MatchedChars(items[1..], pieces[1..]);
      assert forall c | c in pieces[0] :: BodyChar(c) by {
        if items[0].Digits? {
          assert forall i | 0 <= i < |pieces[0]| :: IsDigit(pieces[0][i]);
        } else if pieces[0] != [] {
          assert pieces[0] == [pieces[0][0]];
        }
      }
      assert Concat(pieces) == pieces[0] + Concat(pieces[1..]);
    }
  }

  // ---- the phone pattern ----

  /** The alternatives of `(\+7|8|7)?`. */
  datatype Prefix = NoPrefix | PlusSeven | Eight | Seven

  function PrefixText(p: Prefix): string {
    match p
    case NoPrefix => ""
    case PlusSeven => "+7"
    case Eight => "8"
    case Seven => "7"
  }

  /** A phone number as the pattern sees it: the prefix and the piece of each body item. */
  datatype Shape = Shape(prefix: Prefix, pieces: seq<string>)

  predicate WellFormed(p: Shape) {
    FitsAll(BodyPattern, p.pieces)
  }

  function Render(p: Shape): string {
    PrefixText(p.prefix) + Concat(p.pieces)
  }

  /** The language of the pattern. */
  ghost predicate InLanguage(s: string) {
    exists p: Shape :: WellFormed(p) && Render(p) == s
  }

  function ParseBody(s: string): Option<seq<string>> {
    MatchItems(BodyPattern, s)
  }

  /** The prefix alternative `prefix` taken, then the body up to the end of the string. */
  function ParseWith(prefix: Prefix, s: string): (r: Option<Shape>)
    ensures r.Some? ==> r.value.prefix == prefix && WellFormed(r.value) && Render(r.value) == s
  {
    var t := PrefixText(prefix);
    if |t| <= |s| && s[..|t|] == t then
      match ParseBody(s[|t|..])
      case Some(pieces) =>
        assert s == t + s[|t|..];
        Some(Shape(prefix, pieces))
      case None => None
    else None
  }

  /** The whole pattern, anchored at both ends: the first prefix alternative, in the
      pattern's order, after which the body matches; else no prefix. */
  function Parse(s: string): Option<Shape> {
    if ParseWith(PlusSeven, s).Some? then ParseWith(PlusSeven, s)
    else if ParseWith(Eight, s).Some? then ParseWith(Eight, s)
    else if ParseWith(Seven, s).Some? then ParseWith(Seven, s)
    else ParseWith(NoPrefix, s)
  }

  /** `phoneRegex.test(s)` */
  predicate Matches(s: string) {
    Parse(s).Some?
  }

  // ---- facts about the phone pattern ----

  lemma BodyPatternDeterministic()
    ensures Deterministic(BodyPattern)
  {
    var b := BodyPattern;
    assert b[9..] == [Digits(2)];
    assert Deterministic(b[9..]);
    assert b[8..] == [OptionalSeparator] + b[9..];
    assert Deterministic(b[8..]);
    assert b[7..] == [Digits(2)] + b[8..];
    assert Deterministic(b[7..]);
    assert b[6..] == [OptionalSeparator] + b[7..];
    assert Deterministic(b[6..]);
    assert b[5..] == [Digits(3)] + b[6..];
    assert Deterministic(b[5..]);
    assert b[4..] == [OptionalSeparator] + b[5..];
    assert Deterministic(b[4..]);
    assert b[3..] == [OptionalChar(')')] + b[4..];
    assert Deterministic(b[3..]);
    assert b[2..] == [Digits(3)] + b[3..];
    assert Deterministic(b[2..]);
    assert b[1..] == [OptionalChar('(')] + b[2..];
    assert forall c :: CanStart(b[2..], c) ==> IsDigit(c);
    assert Deterministic(b[1..]);
    assert forall c :: CanStart(b[1..], c) ==> c == '(' || IsDigit(c);
  }

  lemma BodyPatternDigits()
    ensures PatternDigits(BodyPattern) == 10
  {
    var b := BodyPattern;
    assert b[9..] == [Digits(2)];
    assert b[8..] == [OptionalSeparator] + b[9..];
    assert b[7..] == [Digits(2)] + b[8..];
    assert b[6..] == [OptionalSeparator] + b[7..];
    assert b[5..] == [Digits(3)] + b[6..];
    assert b[4..] == [OptionalSeparator] + b[5..];
    assert b[3..] == [OptionalChar(')')] + b[4..];
    assert b[2..] == [Digits(3)] + b[3..];
    assert b[1..] == [OptionalChar('(')] + b[2..];
    assert PatternDigits(b[9..]) == 2;
    assert PatternDigits(b[8..]) == 2;
    assert PatternDigits(b[7..]) == 4;
    assert PatternDigits(b[6..]) == 4;
    assert PatternDigits(b[5..]) == 7;
    assert PatternDigits(b[4..]) == 7;
    assert PatternDigits(b[3..]) == 7;
    assert PatternDigits(b[2..]) == 10;
    assert PatternDigits(b[1..]) == 10;
  }

  lemma BodyPatternLiterals()
    ensures ParenthesisLiterals(BodyPattern)
  {
  }

  /** A body never starts with `+`: its first character is a separator, `(` or a digit. */
  lemma BodyStart(pieces: seq<string>)
    requires FitsAll(BodyPattern, pieces) && Concat(pieces) != []
    ensures Concat(pieces)[0] != '+'
  {
    var b := BodyPattern;
    FirstChar(b, pieces);
    assert b[2..] == [Digits(3)] + b[3..];
    assert b[1..] == [OptionalChar('(')] + b[2..];
    assert !CanStart(b, '+');
  }

  /** Soundness: every accepted string is the rendering of the well-formed shape returned. */
  lemma ParseSound(s: string)
    requires Matches(s)
    ensures WellFormed(Parse(s).value) && Render(Parse(s).value) == s
  {
  }

  /** A rendered body holds ten digits. */
  lemma BodyDigits(pieces: seq<string>)
    requires FitsAll(BodyPattern, pieces)
    ensures DigitCount(Concat(pieces)) == 10
  {
    BodyPatternLiterals();
    MatchedDigits(BodyPattern, pieces);
    BodyPatternDigits();
  }

  /** Whatever `ParseWith` accepts holds the prefix's digits and the body's ten. */
  lemma ParseWithDigits(prefix: Prefix, s: string)
    ensures ParseWith(prefix, s).Some? ==> DigitCount(s) == DigitCount(PrefixText(prefix)) + 10
  {
    if ParseWith(prefix, s).Some? {
      var r := ParseWith(prefix, s).value;
      BodyDigits(r.pieces);
      DigitCountAppend(PrefixText(prefix), Concat(r.pieces));
    }
  }

  /** A one-digit prefix cannot be split off a bare body: nine digits would remain. */
  lemma NoDigitSplit(pieces: seq<string>, prefix: Prefix)
    requires FitsAll(BodyPattern, pieces) && (prefix == Eight || prefix == Seven)
    ensures ParseWith(prefix, Concat(pieces)).None?
  {
    BodyDigits(pieces);
    ParseWithDigits(prefix, Concat(pieces));
  }

  lemma ParseWithOwnPrefix(p: Shape)
    requires WellFormed(p)
    ensures ParseWith(p.prefix, Render(p)) == Some(p)
  {
    var t := PrefixText(p.prefix);
    var s := Render(p);
    BodyPatternDeterministic();
    MatchItemsComplete(BodyPattern, p.pieces);
    assert s[..|t|] == t && s[|t|..] == Concat(p.pieces);
  }

  /** Completeness: every well-formed shape is accepted, and parsed back to itself. */
  lemma ParseComplete(p: Shape)
    requires WellFormed(p)
    ensures Parse(Render(p)) == Some(p)
  {
    var s := Render(p);
    ParseWithOwnPrefix(p);
    match p.prefix
    case PlusSeven =>
    case Eight =>
      assert |s| >= 2 ==> s[..2] != "+7" by {
        if |s| >= 2 { assert s[..2][0] == s[0] == '8'; }
      }
    case Seven =>
      assert |s| >= 2 ==> s[..2] != "+7" by {
        if |s| >= 2 { assert s[..2][0] == s[0] == '7'; }
      }
      assert s[..1] != "8" by { assert s[..1][0] == s[0] == '7'; }
    case NoPrefix =>
      assert s == Concat(p.pieces);
      BodyDigits(p.pieces);
      BodyStart(p.pieces);
      assert |s| >= 2 ==> s[..2] != "+7" by {
        if |s| >= 2 { assert s[..2][0] == s[0]; }
      }
      NoDigitSplit(p.pieces, Eight);
      NoDigitSplit(p.pieces, Seven);
  }

  /** The recognizer decides exactly the language of the pattern. */
  lemma MatchesIff(s: string)
    ensures Matches(s) <==> InLanguage(s)
  {
    if InLanguage(s) {
      var p: Shape :| WellFormed(p) && Render(p) == s;
      ParseComplete(p);
    }
  }

  /** Ten digits behind the optional prefix; `+7`, `8` and `7` each add one more. */
  lemma MatchedDigitCount(s: string)
    requires Matches(s)
    ensures DigitCount(s) == if Parse(s).value.prefix == NoPrefix then 10 else 11
  {
    var p := Parse(s).value;
    ParseWithDigits(p.prefix, s);
  }

  /** The empty string is not a phone number. */
  lemma EmptyNotMatched()
    ensures !Matches("")
  {
    ParseWithDigits(PlusSeven, "");
    ParseWithDigits(Eight, "");
    ParseWithDigits(Seven, "");
    ParseWithDigits(NoPrefix, "");
  }

  /** The characters an accepted string can contain. */
  predicate PatternChar(c: char) {
    BodyChar(c) || c == '+'
  }

  lemma MatchedPhoneChars(s: string)
    requires Matches(s)
    ensures forall c | c in s :: PatternChar(c)
  {
    var p := Parse(s).value;
    BodyPatternLiterals();
    MatchedChars(BodyPattern, p.pieces);
  }
}
