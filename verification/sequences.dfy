/** Small facts about sequences, stated for any element type so that the solver does not look inside strings. */
module Sequences {

  lemma AppendAssoc<T>(a: seq<T>, b: seq<T>, c: seq<T>)
    ensures a + b + c == a + (b + c)
  {
  }

  /** Pushing and then popping leaves the stack as it was. */
  lemma PushPop<T>(s: seq<T>, x: T)
    ensures (s + [x])[..|s|] == s
  {
  }

  predicate NoDuplicates<T(==)>(s: seq<T>) {
    forall a, b :: 0 <= a < b < |s| ==> s[a] != s[b]
  }

  lemma NoDuplicatesAppend<T>(a: seq<T>, b: seq<T>)
    requires NoDuplicates(a) && NoDuplicates(b)
    requires forall x :: x in a ==> x !in b
    ensures NoDuplicates(a + b)
  {
    forall i, j | 0 <= i < j < |a + b|
      ensures (a + b)[i] != (a + b)[j]
    {
      if j < |a| {
      } else if i < |a| {
        assert (a + b)[i] in a;
        assert (a + b)[j] == b[j - |a|];
      } else {
        assert (a + b)[i] == b[i - |a|];
        assert (a + b)[j] == b[j - |a|];
      }
    }
  }

  lemma DeletedLength<T>(s: seq<T>, i: nat)
    requires i < |s|
    ensures |s[..i] + s[i + 1..]| == |s| - 1
  {
  }

  /** Deleting item `i` shifts every later item down by one. */
  lemma DeleteAt<T>(s: seq<T>, i: nat, j: nat)
    requires i < |s| && j < |s| - 1
    ensures |s[..i] + s[i + 1..]| == |s| - 1
    ensures (s[..i] + s[i + 1..])[j] == if j < i then s[j] else s[j + 1]
  {
  }

  /** `e` sits inside `whole` with `pre` before it and `post` after it. */
  predicate Within<T(==)>(whole: seq<T>, pre: seq<T>, e: seq<T>, post: seq<T>) {
    whole == pre + e + post
  }

  /** A block found inside the first part of a concatenation is found inside the whole. */
  lemma WithinPrefix<T>(whole: seq<T>, first: seq<T>, last: seq<T>, pre: seq<T>, e: seq<T>, post: seq<T>)
    requires whole == first + last
    requires Within(first, pre, e, post)
    ensures Within(whole, pre, e, post + last)
  {
  }

  /** The last part of a concatenation is found inside it. */
  lemma WithinLast<T>(whole: seq<T>, first: seq<T>, last: seq<T>)
    requires whole == first + last
    ensures Within(whole, first, last, [])
  {
  }

  /** A block inside a block inside `outer` is inside `outer`. */
  lemma NestWithin<T>(outer: seq<T>, pre0: seq<T>, entry: seq<T>, post0: seq<T>,
                      x: seq<T>, inner: seq<T>, y: seq<T>, pre1: seq<T>, e: seq<T>, post1: seq<T>)
    requires Within(outer, pre0, entry, post0)
    requires entry == x + inner + y
    requires Within(inner, pre1, e, post1)
    ensures Within(outer, pre0 + x + pre1, e, post1 + y + post0)
  {
  }

  lemma Inside<T>(whole: seq<T>, pre: seq<T>, e: seq<T>, post: seq<T>)
    requires Within(whole, pre, e, post)
    ensures exists a, b :: whole == a + e + b
  {
  }

  lemma InsideBeforeLast<T>(whole: seq<T>, first: seq<T>, last: seq<T>, pre: seq<T>, e: seq<T>, post: seq<T>)
    requires whole == first + last
    requires Within(first, pre, e, post)
    ensures exists a, b :: whole == a + e + b + last
  {
  }

  /** The front part of a block found inside `whole` is found inside `whole`. */
  lemma WithinFront<T>(whole: seq<T>, pre: seq<T>, e: seq<T>, post: seq<T>, front: seq<T>, back: seq<T>)
    requires Within(whole, pre, e, post)
    requires e == front + back
    ensures Within(whole, pre, front, back + post)
  {
  }

  /** A block inside the front part of a block found inside `whole` is found inside `whole`. */
  lemma NestFront<T>(whole: seq<T>, pre0: seq<T>, e: seq<T>, post0: seq<T>, front: seq<T>, back: seq<T>,
                     pre1: seq<T>, b: seq<T>, post1: seq<T>)
    requires Within(whole, pre0, e, post0)
    requires e == front + back
    requires Within(front, pre1, b, post1)
    ensures Within(whole, pre0 + pre1, b, post1 + back + post0)
  {
  }

  /** The back part of a block found inside `whole` is found inside `whole`. */
  lemma WithinBack<T>(whole: seq<T>, pre: seq<T>, e: seq<T>, post: seq<T>, front: seq<T>, back: seq<T>)
    requires Within(whole, pre, e, post)
    requires e == front + back
    ensures Within(whole, pre + front, back, post)
  {
  }

  /**
   * When `block` (ending in `own`) sits in the first part of `whole`, and
   * `d` sits in the part of `block` before `own`, then `d` comes before
   * `own`, which comes before `last`.
   */
  lemma BeforeInside<T>(whole: seq<T>, first: seq<T>, last: seq<T>, pre0: seq<T>, block: seq<T>, post0: seq<T>,
                        inner: seq<T>, own: seq<T>, pre1: seq<T>, d: seq<T>, post1: seq<T>)
    requires whole == first + last
    requires Within(first, pre0, block, post0)
    requires block == inner + own
    requires Within(inner, pre1, d, post1)
    ensures exists a, b, c :: whole == a + d + b + own + c
  {
    assert whole == (pre0 + pre1) + d + post1 + own + (post0 + last);
  }

  lemma ConcatEqual<T>(x: seq<T>, a: seq<T>, b: seq<T>, y: seq<T>, c: seq<T>, d: seq<T>)
    requires x == a + b && y == c + d && a == c && b == d
    ensures x == y
  {
  }

  /** `f` applied to each item of `s`. */
  function Map<A, B>(f: A -> B, s: seq<A>): (r: seq<B>)
    ensures |r| == |s|
  {
    seq(|s|, j requires 0 <= j < |s| => f(s[j]))
  }

  lemma MapAppend<A, B>(f: A -> B, a: seq<A>, b: seq<A>)
    ensures Map(f, a + b) == Map(f, a) + Map(f, b)
  {
    forall j | 0 <= j < |a + b|
      ensures Map(f, a + b)[j] == (Map(f, a) + Map(f, b))[j]
    {
      if j < |a| {
        assert (a + b)[j] == a[j];
      } else {
        assert (a + b)[j] == b[j - |a|];
      }
    }
  }

  /** The blocks of `blocks`, one after another. */
  function Flatten<T>(blocks: seq<seq<T>>): seq<T> {
    if blocks == [] then [] else blocks[0] + Flatten(blocks[1..])
  }

  lemma FlattenSingle<T>(block: seq<T>)
    ensures Flatten([block]) == block
  {
    assert [block][1..] == [];
  }

  lemma {:induction false} FlattenAppend<T>(a: seq<seq<T>>, b: seq<seq<T>>)
    ensures Flatten(a + b) == Flatten(a) + Flatten(b)
  {
    if a == [] {
      assert a + b == b;
    } else {
      assert (a + b)[0] == a[0];
      assert (a + b)[1..] == a[1..] + b;
      FlattenAppend(a[1..], b);
      AppendAssoc(a[0], Flatten(a[1..]), Flatten(b));
    }
  }
}
