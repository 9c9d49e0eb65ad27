/**
 * The tag-wrapper codec most protocols in the simulator share: encoding
 * writes `OPENER` + data + `)`, decoding applies
 * `s.replace(OPENER, "").replace(")", "")` -- each `replace` with a string
 * pattern, so each removes only the FIRST occurrence.
 */
module Tags {
  import opened Strings

  function Wrap(opener: string, x: string): (w: string)
    ensures |w| == |opener| + |x| + 1
    ensures w[..|opener|] == opener && w[|w| - 1] == ')'
  {
    opener + x + ")"
  }

  /** Takes out the first opener, then the first `)`, and nothing more. */
  function Unwrap(opener: string, s: string): (r: string)
    ensures !Contains(s, opener) && !Contains(s, ")") ==> r == s
    ensures |s| - |opener| - 1 <= |r| <= |s|
  {
    ReplaceFirst(ReplaceFirst(s, opener, ""), ")", "")
  }

  /** A text holding neither the opener nor a `)` is left alone. */
  lemma UnwrapIdentity(opener: string, s: string)
    requires !Contains(s, opener) && ')' !in s
    ensures Unwrap(opener, s) == s
  {
    AbsentByChar(s, [')'], ')');
  }

  /**
   * Unwrapping finds the opener after a prefix that lacks it and then the
   * first `)`: `pre + opener + x + ")" + post` becomes `pre + x + post`
   * when neither `pre` nor `x` holds a `)`.
   */
  lemma UnwrapInside(opener: string, pre: string, x: string, post: string)
    requires IsFirst(pre + opener, opener, |pre|)
    requires ')' !in pre && ')' !in x
    ensures Unwrap(opener, pre + opener + x + ")" + post) == pre + x + post
  {
    var rest := x + ")" + post;
    var t := ReplaceFirst(pre + opener + x + ")" + post, opener, "");
    assert t == (pre + x) + [')'] + post by {
      Regroup(pre + opener, x, ")", post);
      ReplaceFirstAfter(pre, opener, rest, "");
      Regroup(pre, x, ")", post);
      EmptyMiddle(pre, rest);
    }
    assert ReplaceFirst(t, ")", "") == pre + x + post by {
      assert ')' !in pre + x;
      ReplaceFirstChar(pre + x, post, ')', "");
      EmptyMiddle(pre + x, post);
    }
  }

  /** A wrapped text after a prefix `pre` without `)`, where the opener first appears after `pre`, unwraps to `pre + x`. */
  lemma UnwrapAfter(opener: string, pre: string, x: string)
    requires IsFirst(pre + opener, opener, |pre|)
    requires ')' !in pre && ')' !in x
    ensures Unwrap(opener, pre + Wrap(opener, x)) == pre + x
  {
    Regroup(pre, opener, x, ")");
    UnwrapInside(opener, pre, x, "");
    assert pre + opener + x + ")" + "" == pre + opener + x + ")";
    assert pre + x + "" == pre + x;
  }

  lemma EmptyMiddle(a: string, b: string)
    ensures a + "" + b == a + b
  {
  }

  /** `a + b + c + d`, grouped after `a`. */
  lemma Regroup(a: string, b: string, c: string, d: string)
    ensures a + b + c + d == a + (b + c + d)
  {
  }

  /** The opener is first found where the text starts with it. */
  lemma OpenerFirst(opener: string)
    ensures IsFirst("" + opener, opener, 0)
  {
    assert "" + opener == opener;
    FirstAtStart(opener, opener);
  }

  /** Unwrapping a wrapped text without `)` gives it back. */
  lemma UnwrapWrap(opener: string, x: string)
    requires ')' !in x
    ensures Unwrap(opener, Wrap(opener, x)) == x
  {
    calc {
      Unwrap(opener, Wrap(opener, x));
      { assert Wrap(opener, x) == "" + opener + x + ")" + ""; }
      Unwrap(opener, "" + opener + x + ")" + "");
      { OpenerFirst(opener); UnwrapInside(opener, "", x, ""); }
      "" + x + "";
      x;
    }
  }

  /**
   * When the data holds a `)`, decoding removes that first `)` instead of
   * the closing one: `a + ")" + b` comes back as `a + b + ")"`.
   */
  lemma UnwrapWrapParen(opener: string, a: string, b: string)
    requires ')' !in a
    ensures Unwrap(opener, Wrap(opener, a + ")" + b)) == a + b + ")"
  {
    calc {
      Unwrap(opener, Wrap(opener, a + ")" + b));
      { assert Wrap(opener, a + ")" + b) == "" + opener + a + ")" + (b + ")"); }
      Unwrap(opener, "" + opener + a + ")" + (b + ")"));
      { OpenerFirst(opener); UnwrapInside(opener, "", a, b + ")"); }
      "" + a + (b + ")");
      a + b + ")";
    }
  }

  /** A text holding a `)` does not survive the round trip. */
  lemma WrapParenLost(opener: string, a: string, b: string)
    requires ')' !in a && |b| > 0 && b[0] != ')'
    ensures Unwrap(opener, Wrap(opener, a + ")" + b)) != a + ")" + b
  {
    UnwrapWrapParen(opener, a, b);
    assert (a + b + ")")[|a|] == b[0];
    assert (a + ")" + b)[|a|] == ')';
  }
}
