/**
 The JavaScript string operations the validators rely on: the whitespace class shared by
 `String.prototype.trim` and the regular-expression escape `\s`, `trim` itself, the global
 replacement `s.replace(/\s/g, '')`, and `.length`, which counts UTF-16 code units.
 */
module JsStrings {

  /** ECMAScript WhiteSpace and LineTerminator code points: tab, line feed, vertical tab,
      form feed, carriage return, space, no-break space, the Unicode space separators,
      line and paragraph separators, and the byte-order mark. */
  predicate IsWhitespace(c: char) {
    if c < '\U{A0}' then
      c == ' ' || ('\t' <= c <= '\r')  // tab, line feed, vertical tab, form feed, carriage return
    else
      || c == '\U{A0}' || c == '\U{1680}' || ('\U{2000}' <= c <= '\U{200A}')
      || c == '\U{2028}' || c == '\U{2029}' || c == '\U{202F}' || c == '\U{205F}'
      || c == '\U{3000}' || c == '\U{FEFF}'
  }

  predicate AllWhitespace(s: string) {
    forall i | 0 <= i < |s| :: IsWhitespace(s[i])
  }

  predicate NoWhitespace(s: string) {
    forall i | 0 <= i < |s| :: !IsWhitespace(s[i])
  }

  /** The leading-whitespace half of `trim`: drops whitespace from the front. */
  function TrimStart(s: string): (r: string)
    ensures |r| <= |s| && r == s[|s| - |r|..]
    ensures r == [] || !IsWhitespace(r[0])
  {
    if s != [] && IsWhitespace(s[0]) then TrimStart(s[1..]) else s
  }

  /** What `TrimStart` drops is whitespace. */
  lemma {:induction false} TrimStartDrops(s: string)
    ensures AllWhitespace(s[..|s| - |TrimStart(s)|])
  {
    if s != [] && IsWhitespace(s[0]) {
      TrimStartDrops(s[1..]);
      var k := |s| - |TrimStart(s)|;
      forall i | 0 <= i < k ensures IsWhitespace(s[i]) {
        if i > 0 { assert s[i] == s[1..][..k - 1][i - 1]; }
      }
    }
  }

  /** The trailing-whitespace half of `trim`: drops whitespace from the back. */
  function TrimEnd(s: string): (r: string)
    ensures |r| <= |s| && r == s[..|r|]
    ensures r == [] || !IsWhitespace(r[|r| - 1])
  {
    if s != [] && IsWhitespace(s[|s| - 1]) then TrimEnd(s[..|s| - 1]) else s
  }

  /** What `TrimEnd` drops is whitespace. */
  lemma {:induction false} TrimEndDrops(s: string)
    ensures AllWhitespace(s[|TrimEnd(s)|..])
  {
    if s != [] && IsWhitespace(s[|s| - 1]) {
      TrimEndDrops(s[..|s| - 1]);
      var n := |TrimEnd(s)|;
      forall i | n <= i < |s| ensures IsWhitespace(s[i]) {
        if i < |s| - 1 { assert s[i] == s[..|s| - 1][n..][i - n]; }
      }
    }
  }

  /** `String.prototype.trim`. */
  function Trim(s: string): (r: string)
    ensures |r| <= |s|
    ensures r == [] || (!IsWhitespace(r[0]) && !IsWhitespace(r[|r| - 1]))
  {
    TrimEnd(TrimStart(s))
  }

  /** Whitespace in front of a string does not survive `TrimStart`. */
  lemma {:induction false} TrimStartSkips(a: string, x: string)
    requires AllWhitespace(a)
    ensures TrimStart(a + x) == TrimStart(x)
  {
    if a == [] {
      assert a + x == x;
    } else {
      assert (a + x)[0] == a[0];
      assert (a + x)[1..] == a[1..] + x;
      TrimStartSkips(a[1..], x);
    }
  }

  /** Whitespace at the back of a string does not survive `TrimEnd`. */
  lemma {:induction false} TrimEndSkips(x: string, b: string)
    requires AllWhitespace(b)
    ensures TrimEnd(x + b) == TrimEnd(x)
  {
    if b == [] {
      assert x + b == x;
    } else {
      var xb := x + b;
      assert xb[|xb| - 1] == b[|b| - 1];
      assert xb[..|xb| - 1] == x + b[..|b| - 1];
      TrimEndSkips(x, b[..|b| - 1]);
    }
  }

  /** The independent characterisation of `trim`: whatever core `r` is surrounded by
      whitespace only, and itself starts and ends with a non-whitespace character (or is
      empty), is exactly what `trim` returns. */
  lemma TrimCharacterization(a: string, r: string, b: string)
    requires AllWhitespace(a) && AllWhitespace(b)
    requires r == [] || (!IsWhitespace(r[0]) && !IsWhitespace(r[|r| - 1]))
    ensures Trim(a + r + b) == r
  {
    var rb := r + b;
    assert a + r + b == a + rb;
    TrimStartSkips(a, rb);
    if r == [] {
      assert rb == b + [];
      TrimStartSkips(b, []);
      assert TrimStart(a + r + b) == [];
    } else {
      assert rb[0] == r[0];
      TrimStartKeeps(rb);
      TrimEndSkips(r, b);
      TrimEndKeeps(r);
      assert TrimStart(a + r + b) == rb;
    }
  }

  lemma TrimStartKeeps(s: string)
    requires s != [] && !IsWhitespace(s[0])
    ensures TrimStart(s) == s
  {
  }

  lemma TrimEndKeeps(s: string)
    requires s != [] && !IsWhitespace(s[|s| - 1])
    ensures TrimEnd(s) == s
  {
  }

  /** Every string splits as leading whitespace, its trimmed core, trailing whitespace;
      `k` is the length of the leading part. */
  lemma TrimSplit(s: string) returns (k: nat)
    ensures k + |Trim(s)| <= |s|
    ensures s == s[..k] + Trim(s) + s[k + |Trim(s)|..]
    ensures AllWhitespace(s[..k]) && AllWhitespace(s[k + |Trim(s)|..])
  {
    var t := TrimStart(s);
    k := |s| - |t|;
    var r := TrimEnd(t);
    var j := k + |r|;
    TrimStartDrops(s);
    TrimEndDrops(t);
    assert t == s[k..];
    assert r == t[..|r|];
    SliceOfSuffix(s, k, |r|);
    assert t[|r|..] == s[j..];
    SplitThree(s, k, j);
  }

  lemma SliceOfSuffix(s: string, k: nat, n: nat)
    requires k + n <= |s|
    ensures s[k..][..n] == s[k..k + n] && s[k..][n..] == s[k + n..]
  {
  }

  lemma SplitThree(s: string, i: nat, j: nat)
    requires i <= j <= |s|
    ensures s == s[..i] + s[i..j] + s[j..]
  {
    assert s == s[..i] + s[i..];
    assert s[i..] == s[i..j] + s[j..];
  }

  lemma AllWhitespaceAppend(x: string, y: string)
    requires AllWhitespace(x) && AllWhitespace(y)
    ensures AllWhitespace(x + y)
  {
    forall i | 0 <= i < |x + y| ensures IsWhitespace((x + y)[i]) {
      if i < |x| { assert (x + y)[i] == x[i]; } else { assert (x + y)[i] == y[i - |x|]; }
    }
  }

  /** Text after a non-whitespace character is untouched by `TrimStart`. */
  lemma {:induction false} TrimStartAppend(s: string, b: string)
    requires !AllWhitespace(s)
    ensures TrimStart(s + b) == TrimStart(s) + b
  {
    assert (s + b)[0] == s[0];
    if IsWhitespace(s[0]) {
      assert !AllWhitespace(s[1..]) by {
        var i :| 0 <= i < |s| && !IsWhitespace(s[i]);
        assert s[1..][i - 1] == s[i];
      }
      assert (s + b)[1..] == s[1..] + b;
      TrimStartAppend(s[1..], b);
    }
  }

  /** Surrounding whitespace never changes the result of `trim`. */
  lemma TrimPadding(a: string, s: string, b: string)
    requires AllWhitespace(a) && AllWhitespace(b)
    ensures Trim(a + s + b) == Trim(s)
  {
    assert a + s + b == a + (s + b);
    TrimStartSkips(a, s + b);
    if AllWhitespace(s) {
      AllWhitespaceAppend(s, b);
      assert s + b == (s + b) + [];
      TrimStartSkips(s + b, []);
      TrimEmptyIff(s);
    } else {
      TrimStartAppend(s, b);
      TrimEndSkips(TrimStart(s), b);
    }
  }

  /** `trim` yields the empty string exactly when the input is all whitespace. */
  lemma TrimEmptyIff(s: string)
    ensures Trim(s) == [] <==> AllWhitespace(s)
  {
    var k := TrimSplit(s);
    if Trim(s) == [] {
      assert s == s[..k] + s[k..];
      forall i | 0 <= i < |s| ensures IsWhitespace(s[i]) {
        if i < k { assert s[i] == s[..k][i]; } else { assert s[i] == s[k..][i - k]; }
      }
    }
    if AllWhitespace(s) {
      assert s == s + [];
      TrimStartSkips(s, []);
    }
  }

  /** Every character of the trimmed string occurs in the input. */
  lemma TrimCharsFromInput(s: string)
    ensures forall c | c in Trim(s) :: c in s
  {
    var k := TrimSplit(s);
  }

  /** `.length` of a JavaScript string: characters outside the Basic Multilingual Plane take
      two UTF-16 code units, all others one. */
  function Utf16Length(s: string): (n: nat)
    ensures |s| <= n <= 2 * |s|
    ensures n == |s| <==> forall i | 0 <= i < |s| :: s[i] as int < 0x1_0000
  {
    if s == [] then 0
    else (if s[0] as int < 0x1_0000 then 1 else 2) + Utf16Length(s[1..])
  }

  /** `s.replace(/\s/g, '')`: every whitespace character removed, the rest kept in order. */
  function RemoveWhitespace(s: string): (r: string)
    ensures |r| <= |s|
    ensures NoWhitespace(r)
  {
    if s == [] then []
    else (if IsWhitespace(s[0]) then [] else [s[0]]) + RemoveWhitespace(s[1..])
  }

  /** The removal keeps exactly the characters of the input that are not whitespace. */
  lemma {:induction false} RemoveWhitespaceMembers(s: string)
    ensures forall c :: c in RemoveWhitespace(s) <==> c in s && !IsWhitespace(c)
  {
    if s != [] {
      RemoveWhitespaceMembers(s[1..]);
      assert s == [s[0]] + s[1..];
    }
  }

  lemma {:induction false} RemoveWhitespaceAppend(a: string, b: string)
    ensures RemoveWhitespace(a + b) == RemoveWhitespace(a) + RemoveWhitespace(b)
  {
    if a == [] {
      assert a + b == b;
    } else {
      assert (a + b)[0] == a[0];
      assert (a + b)[1..] == a[1..] + b;
      RemoveWhitespaceAppend(a[1..], b);
    }
  }

  lemma {:induction false} RemoveWhitespaceOfBlank(s: string)
    requires AllWhitespace(s)
    ensures RemoveWhitespace(s) == []
  {
    if s != [] {
      assert AllWhitespace(s[1..]) by {
        forall i | 0 <= i < |s| - 1 ensures IsWhitespace(s[1..][i]) {
          assert s[1..][i] == s[i + 1];
        }
      }
      RemoveWhitespaceOfBlank(s[1..]);
    }
  }

  /** Removing whitespace from a string that has none is the identity; so the removal is
      idempotent. */
  lemma {:induction false} RemoveWhitespaceIdentity(s: string)
    requires NoWhitespace(s)
    ensures RemoveWhitespace(s) == s
  {
    if s != [] {
      RemoveWhitespaceIdentity(s[1..]);
      assert s == [s[0]] + s[1..];
    }
  }
}
