/** Strings cut in two. */
module Strings {
  import opened Wrappers

  /** What is before the first `sep` and what is after it, if there is one. */
  function Cut(s: string, sep: char): Option<(string, string)> {
    if s == "" then None
    else if s[0] == sep then Some(("", s[1..]))
    else
      var rest := Cut(s[1..], sep);
      if rest == None then None else Some(([s[0]] + rest.value.0, rest.value.1))
  }

  /** Two parts joined come apart as they were exactly when the first does not hold the separator. */
  lemma {:induction false} CutOfJoin(a: string, b: string, sep: char)
    ensures Cut(a + [sep] + b, sep) == Some((a, b)) <==> sep !in a
    ensures Cut(a + [sep] + b, sep).Some?
  {
    var joined := a + [sep] + b;
    if a == "" {
      assert joined[1..] == b;
    } else if a[0] != sep {
      assert joined[1..] == a[1..] + [sep] + b;
      CutOfJoin(a[1..], b, sep);
      assert a == [a[0]] + a[1..];
      if Cut(joined, sep) == Some((a, b)) {
        assert [a[0]] + Cut(joined[1..], sep).value.0 == a;
        assert Cut(joined[1..], sep).value.0 == a[1..];
      }
    }
  }

  /** What is cut apart is what was joined. */
  lemma {:induction false} JoinOfCut(s: string, sep: char)
    requires Cut(s, sep).Some?
    ensures var (a, b) := Cut(s, sep).value; s == a + [sep] + b && sep !in a
  {
    if s[0] != sep {
      JoinOfCut(s[1..], sep);
    }
  }

  /** What follows the prefix, if the string begins with it. */
  function CutPrefix(s: string, prefix: string): (rest: Option<string>)
    ensures rest == None <==> !(prefix <= s)
    ensures rest.Some? ==> s == prefix + rest.value
  {
    if prefix <= s then Some(s[|prefix|..]) else None
  }
}
