/**
 * Python's `str.upper`, `str.lower` and `'_'.join`, restricted to ASCII,
 * as the route generator uses them to build scoped names.
 */
module Text {

  function UpperChar(c: char): char {
    if 'a' <= c <= 'z' then (c as int - ('a' as int - 'A' as int)) as char else c
  }

  function LowerChar(c: char): char {
    if 'A' <= c <= 'Z' then (c as int + ('a' as int - 'A' as int)) as char else c
  }

  function Upper(s: string): string {
    seq(|s|, i requires 0 <= i < |s| => UpperChar(s[i]))
  }

  function Lower(s: string): string {
    seq(|s|, i requires 0 <= i < |s| => LowerChar(s[i]))
  }

  /** `s.upper() == s` */
  predicate IsUpper(s: string) {
    Upper(s) == s
  }

  predicate AllUpper(parts: seq<string>) {
    forall i :: 0 <= i < |parts| ==> IsUpper(parts[i])
  }

  /** `'_'.join(parts)` */
  function Join(parts: seq<string>): string {
    if |parts| == 0 then ""
    else if |parts| == 1 then parts[0]
    else parts[0] + "_" + Join(parts[1..])
  }

  /** Upper-casing is idempotent: every pushed `define.upper()` is already upper case. */
  lemma UpperIsUpper(s: string)
    ensures IsUpper(Upper(s))
  {
    var u := Upper(s);
    forall i | 0 <= i < |u|
      ensures Upper(u)[i] == u[i]
    {
    }
  }

  lemma UpperConcat(a: string, b: string)
    ensures Upper(a + b) == Upper(a) + Upper(b)
  {
    assert |Upper(a + b)| == |Upper(a) + Upper(b)|;
    forall i | 0 <= i < |a + b|
      ensures Upper(a + b)[i] == (Upper(a) + Upper(b))[i]
    {
      if i < |a| {
        assert (a + b)[i] == a[i];
      } else {
        assert (a + b)[i] == b[i - |a|];
      }
    }
  }

  /**
   * Joining upper-case parts with '_' gives an upper-case string, so the
   * `.upper()` applied to a joined name stack changes nothing.
   */
  lemma {:induction false} JoinOfUpperIsUpper(parts: seq<string>)
    requires AllUpper(parts)
    ensures IsUpper(Join(parts))
  {
    if |parts| > 1 {
      assert AllUpper(parts[1..]) by {
        forall i | 0 <= i < |parts[1..]|
          ensures IsUpper(parts[1..][i])
        {
          assert parts[1..][i] == parts[i + 1];
        }
      }
      JoinOfUpperIsUpper(parts[1..]);
      assert IsUpper(parts[0]);
      UpperConcat(parts[0], "_");
      UpperConcat(parts[0] + "_", Join(parts[1..]));
      assert Upper("_") == "_";
    } else if |parts| == 1 {
      assert IsUpper(parts[0]);
    }
  }

  lemma AllUpperAppend(a: seq<string>, b: seq<string>)
    requires AllUpper(a) && AllUpper(b)
    ensures AllUpper(a + b)
  {
    forall i | 0 <= i < |a + b|
      ensures IsUpper((a + b)[i])
    {
      if i < |a| {
        assert (a + b)[i] == a[i];
      } else {
        assert (a + b)[i] == b[i - |a|];
      }
    }
  }
}
