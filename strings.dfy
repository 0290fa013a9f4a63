/**
 * Character- and string-level helpers of the report pipeline: the whitespace
 * class of Python's `\s`, whitespace-run collapsing (`re.sub(r'\s+', ' ', _)`),
 * substring search (`'2023' in v`), the number-token normalisation of
 * `clean_value` and the strings that `float()` accepts after it.
 */
module Strings {

  /** The characters Python's `\s` matches in a `str` pattern (Unicode whitespace). */
  predicate IsSpace(c: char)
  {
    ('\t' <= c <= '\r') || ('\U{1C}' <= c <= ' ') || c == '\U{85}' || c == '\U{A0}'
    || c == '\U{1680}' || ('\U{2000}' <= c <= '\U{200A}') || c == '\U{2028}'
    || c == '\U{2029}' || c == '\U{202F}' || c == '\U{205F}' || c == '\U{3000}'
  }

  /** Drops the leading run of whitespace. */
  function DropSpaces(s: string): (r: string)
    ensures |r| <= |s| && r == s[|s| - |r|..]
    ensures forall i :: 0 <= i < |s| - |r| ==> IsSpace(s[i])
    ensures r == [] || !IsSpace(r[0])
  {
    if s != [] && IsSpace(s[0]) then DropSpaces(s[1..]) else s
  }

  /**
   * Replaces every maximal run of whitespace by one plain space.  The result
   * is empty exactly when the input is, starts with whitespace exactly when
   * the input does, holds no whitespace but ' ' and never two whitespace
   * characters in a row.
   */
  function Collapse(s: string): (r: string)
    ensures |r| == 0 <==> |s| == 0
    ensures s != [] ==> (IsSpace(r[0]) <==> IsSpace(s[0]))
    ensures forall i :: 0 <= i < |r| && IsSpace(r[i]) ==> r[i] == ' '
    ensures forall i, j :: 0 <= i && j == i + 1 < |r| ==> !(IsSpace(r[i]) && IsSpace(r[j]))
    decreases |s|
  {
    if s == [] then []
    else if IsSpace(s[0]) then " " + Collapse(DropSpaces(s))
    else [s[0]] + Collapse(s[1..])
  }

  /** The collapsed text ends with whitespace exactly when the input does. */
  lemma {:induction false} CollapseLast(s: string)
    requires s != []
    ensures IsSpace(Collapse(s)[|Collapse(s)| - 1]) <==> IsSpace(s[|s| - 1])
    decreases |s|
  {
    if IsSpace(s[0]) {
      var t := DropSpaces(s);
      if t != [] {
        CollapseLast(t);
        assert Collapse(s) == " " + Collapse(t);
      }
    } else if |s| > 1 {
      CollapseLast(s[1..]);
      assert Collapse(s) == [s[0]] + Collapse(s[1..]);
    }
  }

  /** Text already in collapsed form: only plain spaces, never two in a row. */
  predicate IsCollapsed(s: string)
  {
    && (forall i :: 0 <= i < |s| && IsSpace(s[i]) ==> s[i] == ' ')
    && (forall i, j :: 0 <= i && j == i + 1 < |s| ==> !(IsSpace(s[i]) && IsSpace(s[j])))
  }

  /** Collapsing leaves collapsed text unchanged; with Collapse's contract this makes it idempotent. */
  lemma {:induction false} CollapseFixesCollapsed(s: string)
    requires IsCollapsed(s)
    ensures Collapse(s) == s
    decreases |s|
  {
    if s != [] {
      assert IsCollapsed(s[1..]) by {
        forall i, j | 0 <= i && j == i + 1 < |s[1..]|
          ensures !(IsSpace(s[1..][i]) && IsSpace(s[1..][j]))
        {
          assert s[1..][i] == s[i + 1] && s[1..][j] == s[j + 1];
        }
      }
      CollapseFixesCollapsed(s[1..]);
      if IsSpace(s[0]) {
        assert |s| > 1 ==> !IsSpace(s[1]);
        assert DropSpaces(s) == s[1..];
      }
    }
  }

  lemma {:induction false} CollapseIdempotent(s: string)
    ensures Collapse(Collapse(s)) == Collapse(s)
  {
    CollapseFixesCollapsed(Collapse(s));
  }

  /** A whitespace run, however long and of whatever whitespace characters, becomes one plain space. */
  lemma {:induction false} CollapseRun(w: string)
    requires w != [] && forall i :: 0 <= i < |w| ==> IsSpace(w[i])
    ensures Collapse(w) == " "
  {
    var t := DropSpaces(w);
    assert t == [];
    assert Collapse(w) == " " + Collapse(t);
  }

  /** A character that is not whitespace is kept as it is. */
  lemma CollapseChar(c: char)
    requires !IsSpace(c)
    ensures Collapse([c]) == [c]
  {
    assert [c][1..] == [];
  }

  /** Dropping leading whitespace from a concatenation: the second part is reached only if the first is all whitespace. */
  lemma {:induction false} DropSpacesAppend(a: string, b: string)
    ensures DropSpaces(a + b) == if DropSpaces(a) == [] then DropSpaces(b) else DropSpaces(a) + b
    decreases |a|
  {
    if a == [] {
      assert a + b == b;
    } else if IsSpace(a[0]) {
      assert (a + b)[0] == a[0] && (a + b)[1..] == a[1..] + b;
      DropSpacesAppend(a[1..], b);
    } else {
      assert (a + b)[0] == a[0];
    }
  }

  /**
   * The substitution works run by run: text split where no whitespace run is
   * cut in two collapses piece by piece.
   */
  lemma {:induction false} CollapseAppend(a: string, b: string)
    requires a == [] || b == [] || !IsSpace(a[|a| - 1]) || !IsSpace(b[0])
    ensures Collapse(a + b) == Collapse(a) + Collapse(b)
    decreases |a|, 1
  {
    if a == [] {
      assert a + b == b;
    } else if IsSpace(a[0]) {
      CollapseAppendAfterRun(a, b);
    } else {
      CollapseAppendAfterChar(a, b);
    }
  }

  lemma {:induction false} CollapseAppendAfterChar(a: string, b: string)
    requires a != [] && !IsSpace(a[0])
    requires b == [] || !IsSpace(a[|a| - 1]) || !IsSpace(b[0])
    ensures Collapse(a + b) == Collapse(a) + Collapse(b)
    decreases |a|, 0
  {
    assert (a + b)[0] == a[0] && (a + b)[1..] == a[1..] + b;
    assert |a| > 1 ==> a[1..][|a| - 2] == a[|a| - 1];
    CollapseAppend(a[1..], b);
    ConcatAssoc([a[0]], Collapse(a[1..]), Collapse(b));
  }

  lemma {:induction false} CollapseAppendAfterRun(a: string, b: string)
    requires a != [] && IsSpace(a[0])
    requires b == [] || !IsSpace(a[|a| - 1]) || !IsSpace(b[0])
    ensures Collapse(a + b) == Collapse(a) + Collapse(b)
    decreases |a|, 0
  {
    var t := DropSpaces(a);
    if t == [] {
      CollapseAllSpacesAppend(a, b);
    } else {
      CollapseRunThenText(a, b);
      assert t[|t| - 1] == a[|a| - 1];
      CollapseAppend(t, b);
      ConcatAssoc(" ", Collapse(t), Collapse(b));
    }
  }

  lemma ConcatAssoc(x: string, y: string, z: string)
    ensures x + (y + z) == (x + y) + z
  {
  }

  /** Text that is all whitespace becomes one space, on its own and before text that does not open with whitespace. */
  lemma {:induction false} CollapseAllSpacesAppend(a: string, b: string)
    requires a != [] && DropSpaces(a) == []
    requires b == [] || !IsSpace(a[|a| - 1]) || !IsSpace(b[0])
    ensures Collapse(a) == " " && Collapse(a + b) == " " + Collapse(b)
  {
    assert IsSpace(a[0]) && IsSpace(a[|a| - 1]);
    DropSpacesAppend(a, b);
    assert (a + b)[0] == a[0];
  }

  /** Past its leading run, collapsing a + b goes on with the rest of a then b. */
  lemma {:induction false} CollapseRunThenText(a: string, b: string)
    requires a != [] && IsSpace(a[0]) && DropSpaces(a) != []
    ensures Collapse(a) == " " + Collapse(DropSpaces(a))
    ensures Collapse(a + b) == " " + Collapse(DropSpaces(a) + b)
  {
    DropSpacesAppend(a, b);
    assert (a + b)[0] == a[0];
  }

  /** Two words separated by any whitespace run end up separated by exactly one space ("a\nb" gives "a b"). */
  lemma {:induction false} CollapseSeparatesWords(x: string, w: string, y: string)
    requires x != [] && !IsSpace(x[|x| - 1])
    requires w != [] && forall i :: 0 <= i < |w| ==> IsSpace(w[i])
    requires y != [] && !IsSpace(y[0])
    ensures Collapse(x + w + y) == Collapse(x) + " " + Collapse(y)
  {
    CollapseAppend(x, w);
    assert (x + w)[|x + w| - 1] == w[|w| - 1];
    CollapseAppend(x + w, y);
    CollapseRun(w);
  }

  /** The text with every whitespace character deleted. */
  function Strip(s: string): string
  {
    if s == [] then [] else (if IsSpace(s[0]) then [] else [s[0]]) + Strip(s[1..])
  }

  lemma {:induction false} StripAppend(a: string, b: string)
    ensures Strip(a + b) == Strip(a) + Strip(b)
    decreases |a|
  {
    if a != [] {
      var head := if IsSpace(a[0]) then [] else [a[0]];
      assert (a + b)[0] == a[0] && (a + b)[1..] == a[1..] + b;
      calc {
        Strip(a + b);
        head + Strip(a[1..] + b);
        { StripAppend(a[1..], b); }
        head + (Strip(a[1..]) + Strip(b));
        (head + Strip(a[1..])) + Strip(b);
      }
    } else {
      assert a + b == b;
    }
  }

  lemma {:induction false} StripDropSpaces(s: string)
    ensures Strip(DropSpaces(s)) == Strip(s)
    decreases |s|
  {
    if s != [] && IsSpace(s[0]) {
      StripDropSpaces(s[1..]);
    }
  }

  /** Collapsing changes nothing but whitespace: the non-whitespace text survives in order. */
  lemma {:induction false} CollapseKeepsText(s: string)
    ensures Strip(Collapse(s)) == Strip(s)
    decreases |s|
  {
    if s != [] {
      if IsSpace(s[0]) {
        var t := DropSpaces(s);
        CollapseKeepsText(t);
        StripAppend(" ", Collapse(t));
        StripDropSpaces(s);
      } else {
        CollapseKeepsText(s[1..]);
        StripAppend([s[0]], Collapse(s[1..]));
      }
    }
  }

  /** `sub` occurs in `s` starting at index `i`. */
  predicate OccursAt(s: string, sub: string, i: int)
  {
    0 <= i <= |s| - |sub| && s[i..i + |sub|] == sub
  }

  /** Past a mismatch at the front, `sub` occurs in `s` exactly when it occurs in the rest of `s`. */
  lemma {:induction false} OccursInTail(s: string, sub: string)
    requires s != [] && !(sub <= s)
    ensures (exists i :: OccursAt(s, sub, i)) <==> (exists i :: OccursAt(s[1..], sub, i))
  {
    if exists i :: OccursAt(s[1..], sub, i) {
      var i :| OccursAt(s[1..], sub, i);
      assert s[1..][i..i + |sub|] == s[i + 1..i + 1 + |sub|];
      assert OccursAt(s, sub, i + 1);
    }
    if exists i :: OccursAt(s, sub, i) {
      var i :| OccursAt(s, sub, i);
      assert i != 0 by {
        assert s[..|sub|] == s[0..0 + |sub|];
      }
      assert s[1..][i - 1..i - 1 + |sub|] == s[i..i + |sub|];
      assert OccursAt(s[1..], sub, i - 1);
    }
  }

  /** `sub in s` on Python strings. */
  function Contains(s: string, sub: string): (r: bool)
    ensures r <==> exists i :: OccursAt(s, sub, i)
    decreases |s|
  {
    if sub <= s then
      assert OccursAt(s, sub, 0);
      true
    else if s == [] then
      assert forall i :: !OccursAt(s, sub, i);
      false
    else
      OccursInTail(s, sub);
      Contains(s[1..], sub)
  }

  /**
   * The string `clean_value` hands to `float()`: every plain space deleted and
   * every comma turned into a decimal point, character by character.
   */
  function CleanValue(s: string): (r: string)
    ensures ' ' !in r && ',' !in r
    ensures |r| <= |s|
  {
    if s == [] then []
    else (if s[0] == ' ' then [] else [if s[0] == ',' then '.' else s[0]]) + CleanValue(s[1..])
  }

  /** `s.replace(' ', '')`: deletes every plain space. */
  function RemoveSpaces(s: string): (r: string)
    ensures ' ' !in r
    ensures |r| <= |s|
  {
    if s == [] then [] else (if s[0] == ' ' then [] else [s[0]]) + RemoveSpaces(s[1..])
  }

  /** `s.replace(',', '.')`: every comma becomes a dot, position by position. */
  function CommasToDots(s: string): (r: string)
    ensures |r| == |s|
    ensures forall i :: 0 <= i < |s| ==> r[i] == if s[i] == ',' then '.' else s[i]
  {
    if s == [] then [] else [if s[0] == ',' then '.' else s[0]] + CommasToDots(s[1..])
  }

  lemma {:induction false} CommasToDotsAppend(a: string, b: string)
    ensures CommasToDots(a + b) == CommasToDots(a) + CommasToDots(b)
    decreases |a|
  {
    if a != [] {
      assert (a + b)[0] == a[0] && (a + b)[1..] == a[1..] + b;
      CommasToDotsAppend(a[1..], b);
    } else {
      assert a + b == b;
    }
  }

  /** The one-pass normalisation is the two `replace` calls of `clean_value`, in their order. */
  lemma {:induction false} CleanValueIsTwoReplaces(s: string)
    ensures CleanValue(s) == CommasToDots(RemoveSpaces(s))
    decreases |s|
  {
    if s != [] {
      var head := if s[0] == ' ' then [] else [s[0]];
      CleanValueIsTwoReplaces(s[1..]);
      assert RemoveSpaces(s) == head + RemoveSpaces(s[1..]);
      CommasToDotsAppend(head, RemoveSpaces(s[1..]));
    }
  }

  /** Normalisation works piece by piece: every non-space, non-comma character is kept in order. */
  lemma {:induction false} CleanValueAppend(a: string, b: string)
    ensures CleanValue(a + b) == CleanValue(a) + CleanValue(b)
    decreases |a|
  {
    if a != [] {
      assert (a + b)[0] == a[0] && (a + b)[1..] == a[1..] + b;
      CleanValueAppend(a[1..], b);
    } else {
      assert a + b == b;
    }
  }

  /** A token with neither spaces nor commas is handed to `float()` unchanged. */
  lemma {:induction false} CleanValuePlainToken(s: string)
    requires ' ' !in s && ',' !in s
    ensures CleanValue(s) == s
    decreases |s|
  {
    if s != [] {
      assert ' ' !in s[1..] && ',' !in s[1..];
      CleanValuePlainToken(s[1..]);
    }
  }

  /** A French decimal comma between two plain digit groups becomes a decimal point ("131,3" gives "131.3"). */
  lemma {:induction false} CleanValueDecimalComma(x: string, y: string)
    requires ' ' !in x && ',' !in x && ' ' !in y && ',' !in y
    ensures CleanValue(x + "," + y) == x + "." + y
  {
    CleanValueAppend(x + ",", y);
    CleanValueAppend(x, ",");
    CleanValuePlainToken(x);
    CleanValuePlainToken(y);
    assert CleanValue(",") == ".";
  }

  /** A thousands-separating space between two groups disappears ("1 234,5" gives "1234.5"). */
  lemma {:induction false} CleanValueThousandsSpace(x: string, y: string)
    ensures CleanValue(x + " " + y) == CleanValue(x) + CleanValue(y)
  {
    var space := CleanValue(" ");
    assert space == [];
    calc {
      CleanValue(x + " " + y);
      { CleanValueAppend(x + " ", y); }
      CleanValue(x + " ") + CleanValue(y);
      { CleanValueAppend(x, " "); }
      CleanValue(x) + space + CleanValue(y);
      { assert CleanValue(x) + space == CleanValue(x); }
      CleanValue(x) + CleanValue(y);
    }
  }

  predicate IsDigit(c: char)
  {
    '0' <= c <= '9'
  }

  function CountChar(c: char, s: string): nat
  {
    if s == [] then 0 else (if s[0] == c then 1 else 0) + CountChar(c, s[1..])
  }

  /** Every character is an ASCII digit or a dot. */
  predicate DigitsAndDots(t: string)
  {
    t == [] || ((IsDigit(t[0]) || t[0] == '.') && DigitsAndDots(t[1..]))
  }

  predicate HasDigit(t: string)
  {
    t != [] && (IsDigit(t[0]) || HasDigit(t[1..]))
  }

  /**
   * Whether Python's `float()` accepts a string of ASCII digits and dots: at
   * least one digit and at most one dot.  Any other character makes the
   * string unacceptable here.
   */
  predicate IsDecimal(t: string)
  {
    DigitsAndDots(t) && HasDigit(t) && CountChar('.', t) <= 1
  }

  /** Every character is '0' or a dot. */
  predicate ZerosAndDots(t: string)
  {
    t == [] || ((t[0] == '0' || t[0] == '.') && ZerosAndDots(t[1..]))
  }

  /** A decimal whose value is zero: all its digits are '0'. */
  predicate IsZeroDecimal(t: string)
  {
    IsDecimal(t) && ZerosAndDots(t)
  }
}
