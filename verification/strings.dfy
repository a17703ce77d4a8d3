/**
  Small helpers shared by the printers: joining strings with a separator,
  and counting bracket characters so that printer output can be shown
  balanced.
 */
module Strings {

  /** Concatenates `parts`, putting `sep` between neighbours (Rust's `Vec::join`). */
  function Join(parts: seq<string>, sep: string): (r: string)
    ensures |parts| == 0 ==> r == ""
    ensures |parts| == 1 ==> r == parts[0]
  {
    if |parts| == 0 then ""
    else if |parts| == 1 then parts[0]
    else parts[0] + sep + Join(parts[1..], sep)
  }

  /** Number of occurrences of `c` in `s`. */
  function Count(s: string, c: char): nat
  {
    if |s| == 0 then 0 else (if s[0] == c then 1 else 0) + Count(s[1..], c)
  }

  lemma {:induction false} CountAppend(a: string, b: string, c: char)
    ensures Count(a + b, c) == Count(a, c) + Count(b, c)
  {
    if |a| == 0 {
      assert a + b == b;
    } else {
      assert (a + b)[1..] == a[1..] + b;
      CountAppend(a[1..], b, c);
    }
  }

  predicate IsBracket(c: char)
  {
    c == '(' || c == ')' || c == '[' || c == ']' || c == '<' || c == '>'
  }

  /** No bracket character of any of the three kinds the printers emit. */
  predicate BracketFree(s: string)
  {
    forall i :: 0 <= i < |s| ==> !IsBracket(s[i])
  }

  lemma BracketFreeAppend(a: string, b: string)
    requires BracketFree(a) && BracketFree(b)
    ensures BracketFree(a + b)
  {
    forall i | 0 <= i < |a + b|
      ensures !IsBracket((a + b)[i])
    {
      if i < |a| {
        assert (a + b)[i] == a[i];
      } else {
        assert (a + b)[i] == b[i - |a|];
      }
    }
  }

  /** Every kind of bracket occurs as often opened as closed. */
  predicate Balanced(s: string)
  {
    && Count(s, '(') == Count(s, ')')
    && Count(s, '[') == Count(s, ']')
    && Count(s, '<') == Count(s, '>')
  }

  lemma {:induction false} BracketFreeCountsZero(s: string, c: char)
    requires BracketFree(s)
    requires IsBracket(c)
    ensures Count(s, c) == 0
  {
    if |s| > 0 {
      assert s[0] != c;
      assert BracketFree(s[1..]) by {
        forall i | 0 <= i < |s[1..]| ensures !IsBracket(s[1..][i]) {
          assert s[1..][i] == s[i + 1];
        }
      }
      BracketFreeCountsZero(s[1..], c);
    }
  }

  lemma BracketFreeIsBalanced(s: string)
    requires BracketFree(s)
    ensures Balanced(s)
  {
    BracketFreeCountsZero(s, '(');
    BracketFreeCountsZero(s, ')');
    BracketFreeCountsZero(s, '[');
    BracketFreeCountsZero(s, ']');
    BracketFreeCountsZero(s, '<');
    BracketFreeCountsZero(s, '>');
  }

  lemma BalancedAppend(a: string, b: string)
    requires Balanced(a) && Balanced(b)
    ensures Balanced(a + b)
  {
    CountAppend(a, b, '(');
    CountAppend(a, b, ')');
    CountAppend(a, b, '[');
    CountAppend(a, b, ']');
    CountAppend(a, b, '<');
    CountAppend(a, b, '>');
  }

  /** Joining balanced parts with a bracket-free separator stays balanced. */
  lemma {:induction false} JoinBalanced(parts: seq<string>, sep: string)
    requires forall i :: 0 <= i < |parts| ==> Balanced(parts[i])
    requires BracketFree(sep)
    ensures Balanced(Join(parts, sep))
  {
    if |parts| == 0 {
      BracketFreeIsBalanced("");
    } else if |parts| > 1 {
      JoinBalanced(parts[1..], sep);
      BracketFreeIsBalanced(sep);
      BalancedAppend(parts[0], sep);
      BalancedAppend(parts[0] + sep, Join(parts[1..], sep));
    }
  }

  /** `pre` is a prefix of `s`. */
  predicate StartsWith(s: string, pre: string)
  {
    |pre| <= |s| && s[..|pre|] == pre
  }

  lemma CountSingle(x: char, c: char)
    ensures Count([x], c) == if x == c then 1 else 0
  {
    assert [x][1..] == [];
  }

  predicate MatchedPair(open: char, close: char)
  {
    (open == '(' && close == ')') || (open == '[' && close == ']') || (open == '<' && close == '>')
  }

  /** A bracket-free head followed by a balanced text in one matching pair is balanced. */
  lemma Enclose(head: string, open: char, s: string, close: char)
    requires BracketFree(head) && MatchedPair(open, close) && Balanced(s)
    ensures Balanced(head + [open] + s + [close])
  {
    var r := head + [open] + s + [close];
    forall x | IsBracket(x)
      ensures Count(r, x) == Count(s, x) + (if open == x then 1 else 0) + (if close == x then 1 else 0)
    {
      CountAppend(head + [open] + s, [close], x);
      CountAppend(head + [open], s, x);
      CountAppend(head, [open], x);
      CountSingle(open, x);
      CountSingle(close, x);
      BracketFreeCountsZero(head, x);
    }
  }

  /** Two balanced texts around a bracket-free separator form a balanced text. */
  lemma BalancedAround(a: string, sep: string, b: string)
    requires Balanced(a) && BracketFree(sep) && Balanced(b)
    ensures Balanced(a + sep + b)
  {
    BracketFreeIsBalanced(sep);
    BalancedAppend(a, sep);
    BalancedAppend(a + sep, b);
  }
}
