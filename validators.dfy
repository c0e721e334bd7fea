/**
 The three field validators of server.js (lines 12-27). Each takes whatever JSON value the
 request body holds for its field, possibly `undefined`, and starts with the guard
 `!v || typeof v !== 'string'` (spelled out for the phone and name, folded into `&&` for
 the model): only a non-empty string gets past it.
 */
module Validators {
  import opened JsStrings
  import opened JsonValues
  import opened PhonePattern

  const MinNameLength := 2
  const MaxNameLength := 50

  /** The shared guard: false when `!v || typeof v !== 'string'`. */
  predicate NonEmptyString(v: JsonValue) {
    !(!Truthy(v) || TypeOf(v) != "string")
  }

  /** `validateName` (lines 12-16): the trimmed name is 2 to 50 UTF-16 code units long. */
  function ValidateName(v: JsonValue): (ok: bool)
    ensures ok <==> v.Str? && MinNameLength <= Utf16Length(Trim(v.s)) <= MaxNameLength
  {
    if !NonEmptyString(v) then false
    else
      var trimmed := Trim(v.s);
      Utf16Length(trimmed) >= MinNameLength && Utf16Length(trimmed) <= MaxNameLength
  }

  /** `validatePhone` (lines 18-23): with every whitespace character removed, the string
      matches the pattern of line 21. */
  function ValidatePhone(v: JsonValue): (ok: bool)
    ensures ok <==> v.Str? && Matches(RemoveWhitespace(v.s))
  {
    EmptyNotMatched();
    if !NonEmptyString(v) then false
    else Matches(RemoveWhitespace(v.s))
  }

  /** `validateModel` (lines 25-27). The source returns the last operand of `&&`; only its
      truthiness is used, and that is what this models: some character is not whitespace. */
  function ValidateModel(v: JsonValue): (ok: bool)
    ensures ok <==> v.Str? && Trim(v.s) != []
  {
    Truthy(v) && TypeOf(v) == "string" && Utf16Length(Trim(v.s)) > 0
  }

  // ---- names ----

  /** Whitespace around a name never changes whether it is accepted. */
  lemma NamePadding(a: string, s: string, b: string)
    requires AllWhitespace(a) && AllWhitespace(b)
    ensures ValidateName(Str(a + s + b)) == ValidateName(Str(s))
  {
    TrimPadding(a, s, b);
  }

  /** For a name without characters outside the Basic Multilingual Plane (Cyrillic and Latin
      names among them), the length limits count characters. */
  lemma NameLengthInCharacters(s: string)
    requires forall i | 0 <= i < |s| :: s[i] as int < 0x1_0000
    ensures ValidateName(Str(s)) <==> MinNameLength <= |Trim(s)| <= MaxNameLength
  {
    TrimCharsFromInput(s);
    var t := Trim(s);
    forall i | 0 <= i < |t| ensures t[i] as int < 0x1_0000 {
      assert t[i] in s;
    }
  }

  /** A name of fewer than two characters, none of them outside the Basic Multilingual
      Plane, is refused. */
  lemma ShortNameRejected(s: string)
    requires |s| < MinNameLength
    requires forall i | 0 <= i < |s| :: s[i] as int < 0x1_0000
    ensures !ValidateName(Str(s))
  {
    NameLengthInCharacters(s);
  }

  /** A blank name is refused, however much whitespace it holds. */
  lemma BlankNameRejected(s: string)
    requires AllWhitespace(s)
    ensures !ValidateName(Str(s))
  {
    TrimEmptyIff(s);
  }

  /** `.length` counts UTF-16 code units, so a single character outside the Basic
      Multilingual Plane already meets the two-character minimum. */
  lemma AstralCharacterIsTwoLong()
    ensures ValidateName(Str("\U{1F600}"))
  {
    var s := "\U{1F600}";
    assert !IsWhitespace(s[0]);
    assert TrimStart(s) == s;
    assert TrimEnd(s) == s;
  }

  // ---- phones ----

  /** The phone check sees only the string with its whitespace removed. */
  lemma PhoneIgnoresWhitespace(a: string, w: string, b: string)
    requires AllWhitespace(w)
    ensures ValidatePhone(Str(a + w + b)) == ValidatePhone(Str(a + b))
  {
    RemoveWhitespaceAppend(a + w, b);
    RemoveWhitespaceAppend(a, w);
    RemoveWhitespaceAppend(a, b);
    RemoveWhitespaceOfBlank(w);
    assert RemoveWhitespace(a + w + b) == RemoveWhitespace(a + b) by {
      assert RemoveWhitespace(a) + [] == RemoveWhitespace(a);
    }
  }

  /** Two strings that agree once their whitespace is removed are judged alike. */
  lemma PhoneDependsOnlyOnStripped(s: string, t: string)
    requires RemoveWhitespace(s) == RemoveWhitespace(t)
    ensures ValidatePhone(Str(s)) == ValidatePhone(Str(t))
  {
  }

  lemma {:induction false} DigitCountIgnoresWhitespace(s: string)
    ensures DigitCount(RemoveWhitespace(s)) == DigitCount(s)
  {
    if s != [] {
      DigitCountIgnoresWhitespace(s[1..]);
      var head := if IsWhitespace(s[0]) then [] else [s[0]];
      DigitCountAppend(head, RemoveWhitespace(s[1..]));
    }
  }

  /** An accepted phone, once its whitespace is removed, holds only digits, `+`, `-`, `(`
      and `)`, and it has 10 digits, or 11 when it carries a country prefix. */
  lemma AcceptedPhoneShape(s: string)
    requires ValidatePhone(Str(s))
    ensures forall c | c in RemoveWhitespace(s) :: IsDigit(c) || c in "+-()"
    ensures DigitCount(s) == 10 || DigitCount(s) == 11
  {
    AcceptedPhoneChars(s);
    var t := RemoveWhitespace(s);
    MatchedDigitCount(t);
    DigitCountIgnoresWhitespace(s);
  }

  lemma AcceptedPhoneChars(s: string)
    requires Matches(RemoveWhitespace(s))
    ensures forall c | c in RemoveWhitespace(s) :: IsDigit(c) || c in "+-()"
  {
    var t := RemoveWhitespace(s);
    RemoveWhitespaceMembers(s);
    MatchedPhoneChars(t);
    forall c | c in t ensures IsDigit(c) || c in "+-()" {
      assert PatternChar(c) && !IsWhitespace(c);
    }
  }

  /** A phone with a letter, or anything else that is neither whitespace nor one of the
      pattern's characters, is refused. */
  lemma ForeignCharacterRejected(s: string, i: nat)
    requires i < |s| && !IsWhitespace(s[i]) && !IsDigit(s[i]) && s[i] !in "+-()"
    ensures !ValidatePhone(Str(s))
  {
    RemoveWhitespaceMembers(s);
    assert s[i] in RemoveWhitespace(s);
    if ValidatePhone(Str(s)) {
      AcceptedPhoneShape(s);
    }
  }

  /** A phone with fewer than ten digits (or more than eleven) is refused. */
  lemma DigitCountOutOfRangeRejected(s: string)
    requires DigitCount(s) < 10 || DigitCount(s) > 11
    ensures !ValidatePhone(Str(s))
  {
    if ValidatePhone(Str(s)) {
      AcceptedPhoneShape(s);
    }
  }

  /** Values other than strings, and the empty string, are never phone numbers. */
  lemma NonStringPhoneRejected(v: JsonValue)
    requires !v.Str? || v.s == ""
    ensures !ValidatePhone(v)
  {
    if v.Str? {
      DigitCountOutOfRangeRejected(v.s);
    }
  }

  /** The pieces with their whitespace removed. */
  function StripPieces(ps: seq<string>): (r: seq<string>)
    ensures |r| == |ps|
    ensures forall k | 0 <= k < |ps| :: r[k] == RemoveWhitespace(ps[k])
  {
    if ps == [] then [] else [RemoveWhitespace(ps[0])] + StripPieces(ps[1..])
  }

  lemma {:induction false} StripConcat(ps: seq<string>)
    ensures RemoveWhitespace(Concat(ps)) == Concat(StripPieces(ps))
  {
    if ps != [] {
      StripConcat(ps[1..]);
      RemoveWhitespaceAppend(ps[0], Concat(ps[1..]));
      assert StripPieces(ps) == [RemoveWhitespace(ps[0])] + StripPieces(ps[1..]);
      assert ([RemoveWhitespace(ps[0])] + StripPieces(ps[1..]))[1..] == StripPieces(ps[1..]);
    }
  }

  /** A piece with its whitespace removed still fits its item: a whitespace separator
      becomes the empty separator. */
  lemma StripFits(item: Item, piece: string)
    requires Fits(item, piece)
    ensures Fits(item, RemoveWhitespace(piece))
  {
    if piece != [] {
      assert piece == [piece[0]] + piece[1..];
      if item.Digits? {
        assert forall i | 0 <= i < |piece| :: IsDigit(piece[i]);
        RemoveWhitespaceIdentity(piece);
      } else {
        assert piece[1..] == [];
      }
    }
  }

  /** Every string of the pattern's language, once its whitespace is removed, is still in
      it: the removal only empties separator pieces. */
  lemma StripShape(p: Shape) returns (q: Shape)
    requires WellFormed(p)
    ensures WellFormed(q) && Render(q) == RemoveWhitespace(Render(p))
  {
    q := Shape(p.prefix, StripPieces(p.pieces));
    forall k | 0 <= k < |BodyPattern| ensures Fits(BodyPattern[k], q.pieces[k]) {
      StripFits(BodyPattern[k], p.pieces[k]);
    }
    StripConcat(p.pieces);
    var t := PrefixText(p.prefix);
    assert NoWhitespace(t);
    RemoveWhitespaceIdentity(t);
    RemoveWhitespaceAppend(t, Concat(p.pieces));
  }

  /** Completeness of `validatePhone` with respect to the pattern: every rendering of a
      well-formed shape is accepted, whitespace separators included. */
  lemma RenderedPhoneAccepted(p: Shape)
    requires WellFormed(p)
    ensures ValidatePhone(Str(Render(p)))
  {
    var q := StripShape(p);
    ParseComplete(q);
  }

  lemma ConcatTen(ps: seq<string>)
    requires |ps| == 10
    ensures Concat(ps) == ps[0] + (ps[1] + (ps[2] + (ps[3] + (ps[4] + (ps[5] + (ps[6] + (ps[7] + (ps[8] + ps[9]))))))))
  {
    assert Concat(ps[9..]) == ps[9];
    assert Concat(ps[8..]) == ps[8] + ps[9];
    assert Concat(ps[7..]) == ps[7] + (ps[8] + ps[9]);
    assert Concat(ps[6..]) == ps[6] + (ps[7] + (ps[8] + ps[9]));
    assert Concat(ps[5..]) == ps[5] + (ps[6] + (ps[7] + (ps[8] + ps[9])));
    assert Concat(ps[4..]) == ps[4] + (ps[5] + (ps[6] + (ps[7] + (ps[8] + ps[9]))));
    assert Concat(ps[3..]) == ps[3] + (ps[4] + (ps[5] + (ps[6] + (ps[7] + (ps[8] + ps[9])))));
    assert Concat(ps[2..]) == ps[2] + (ps[3] + (ps[4] + (ps[5] + (ps[6] + (ps[7] + (ps[8] + ps[9]))))));
    assert Concat(ps[1..]) == ps[1] + (ps[2] + (ps[3] + (ps[4] + (ps[5] + (ps[6] + (ps[7] + (ps[8] + ps[9])))))));
  }

  /** A shape built from its prefix and its ten pieces, and the text it renders. */
  lemma PhoneShape(pre: Prefix, ps: seq<string>) returns (p: Shape)
    requires |ps| == 10 && FitsAll(BodyPattern, ps)
    ensures WellFormed(p)
    ensures Render(p) == PrefixText(pre) + (ps[0] + (ps[1] + (ps[2] + (ps[3] + (ps[4] + (ps[5] + (ps[6] + (ps[7] + (ps[8] + ps[9])))))))))
  {
    p := Shape(pre, ps);
    ConcatTen(ps);
  }

  lemma SampleGroups()
    ensures DigitGroup("999", 3) && DigitGroup("123", 3) && DigitGroup("45", 2) && DigitGroup("67", 2)
  {
  }

  lemma PlainPieces(ps: seq<string>)
    requires ps == ["", "", "999", "", "", "123", "", "45", "", "67"]
    ensures |ps| == 10 && FitsAll(BodyPattern, ps)
  {
    SampleGroups();
  }

  lemma FormattedPieces(ps: seq<string>)
    requires ps == [" ", "(", "999", ")", " ", "123", "-", "45", "-", "67"]
    ensures |ps| == 10 && FitsAll(BodyPattern, ps)
  {
    SampleGroups();
  }

  lemma UnbalancedPieces(ps: seq<string>)
    requires ps == ["", "(", "999", "", "", "123", "", "45", "", "67"]
    ensures |ps| == 10 && FitsAll(BodyPattern, ps)
  {
    SampleGroups();
  }

  // The samples below take their text as a parameter fixed by `requires` rather than
  // writing the literal in the ensures: the verifier then reasons about the text only where
  // a lemma cuts it into pieces, instead of unfolding the literal in every goal.
  lemma BarePhoneShape(s: string) returns (p: Shape)
    requires s == "9991234567"
    ensures WellFormed(p) && Render(p) == s
  {
    var ps := ["", "", "999", "", "", "123", "", "45", "", "67"];
    PlainPieces(ps);
    p := PhoneShape(NoPrefix, ps);
    assert s == "" + ("" + ("" + ("999" + ("" + ("" + ("123" + ("" + ("45" + ("" + "67")))))))));
  }

  /** `9991234567`, with no prefix, is accepted. */
  lemma BarePhoneAccepted(s: string)
    requires s == "9991234567"
    ensures ValidatePhone(Str(s))
  {
    var p := BarePhoneShape(s);
    RenderedPhoneAccepted(p);
  }

  lemma PlusSevenPhoneShape(s: string) returns (p: Shape)
    requires s == "+79991234567"
    ensures WellFormed(p) && Render(p) == s
  {
    var ps := ["", "", "999", "", "", "123", "", "45", "", "67"];
    PlainPieces(ps);
    p := PhoneShape(PlusSeven, ps);
    assert s == "+7" + ("" + ("" + ("999" + ("" + ("" + ("123" + ("" + ("45" + ("" + "67")))))))));
  }

  /** `+79991234567` is accepted. */
  lemma PlusSevenPhoneAccepted(s: string)
    requires s == "+79991234567"
    ensures ValidatePhone(Str(s))
  {
    var p := PlusSevenPhoneShape(s);
    RenderedPhoneAccepted(p);
  }

  lemma EightPhoneShape(s: string) returns (p: Shape)
    requires s == "89991234567"
    ensures WellFormed(p) && Render(p) == s
  {
    var ps := ["", "", "999", "", "", "123", "", "45", "", "67"];
    PlainPieces(ps);
    p := PhoneShape(Eight, ps);
    assert s == "8" + ("" + ("" + ("999" + ("" + ("" + ("123" + ("" + ("45" + ("" + "67")))))))));
  }

  /** `89991234567` is accepted. */
  lemma EightPhoneAccepted(s: string)
    requires s == "89991234567"
    ensures ValidatePhone(Str(s))
  {
    var p := EightPhoneShape(s);
    RenderedPhoneAccepted(p);
  }

  lemma FormattedPhoneShape(s: string) returns (p: Shape)
    requires s == "+7 (999) 123-45-67"
    ensures WellFormed(p) && Render(p) == s
  {
    var ps := [" ", "(", "999", ")", " ", "123", "-", "45", "-", "67"];
    FormattedPieces(ps);
    p := PhoneShape(PlusSeven, ps);
    FormattedText(s);
  }

  /** The formatted sample, cut at the boundaries of its pieces. */
  lemma FormattedText(s: string)
    requires s == "+7 (999) 123-45-67"
    ensures s == "+7" + (" " + ("(" + ("999" + (")" + (" " + ("123" + ("-" + ("45" + ("-" + "67")))))))))
  {
    var t := "-" + ("45" + ("-" + "67"));
    assert t == "-45-67";
    var u := ")" + (" " + ("123" + t));
    assert u == ") 123-45-67";
  }

  /** `+7 (999) 123-45-67`, spaces and dashes included, is accepted. */
  lemma FormattedPhoneAccepted(s: string)
    requires s == "+7 (999) 123-45-67"
    ensures ValidatePhone(Str(s))
  {
    var p := FormattedPhoneShape(s);
    RenderedPhoneAccepted(p);
  }

  lemma UnbalancedParenthesisShape(s: string) returns (p: Shape)
    requires s == "8(9991234567"
    ensures WellFormed(p) && Render(p) == s
  {
    var ps := ["", "(", "999", "", "", "123", "", "45", "", "67"];
    UnbalancedPieces(ps);
    p := PhoneShape(Eight, ps);
    assert s == "8" + ("" + ("(" + ("999" + ("" + ("" + ("123" + ("" + ("45" + ("" + "67")))))))));
  }

  /** Parentheses are independent optional items, so an opening one without its closing
      partner is let through: `8(9991234567` is accepted. */
  lemma UnbalancedParenthesisAccepted(s: string)
    requires s == "8(9991234567"
    ensures ValidatePhone(Str(s))
  {
    var p := UnbalancedParenthesisShape(s);
    RenderedPhoneAccepted(p);
  }

  // ---- models ----

  /** A model is accepted exactly when it is a string with a non-whitespace character. */
  lemma ModelNeedsVisibleCharacter(v: JsonValue)
    ensures ValidateModel(v) <==> v.Str? && exists i | 0 <= i < |v.s| :: !IsWhitespace(v.s[i])
  {
    if v.Str? {
      TrimEmptyIff(v.s);
    }
  }
}
