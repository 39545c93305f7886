/**
Scope lists as OAuth carries them (RFC 6749 section 3.3): split at white space with
`strings.Fields`, put together with `strings.Join(_, " ")`.
*/
module Scopes {

  /** Unicode's White_Space property, which is where `strings.Fields` splits. */
  predicate IsSpace(c: char) {
    var u := c as int;
    || 0x09 <= u <= 0x0D || u == 0x20 || u == 0x85 || u == 0xA0 || u == 0x1680
    || 0x2000 <= u <= 0x200A || u == 0x2028 || u == 0x2029 || u == 0x202F || u == 0x205F || u == 0x3000
  }

  /** One scope, in the sense that splitting leaves it whole. */
  predicate IsScope(s: string) {
    s != "" && forall i :: 0 <= i < |s| ==> !IsSpace(s[i])
  }

  function WordLength(s: string): (n: nat)
    ensures n <= |s|
    ensures forall i :: 0 <= i < n ==> !IsSpace(s[i])
    ensures n < |s| ==> IsSpace(s[n])
  {
    if s == "" || IsSpace(s[0]) then 0 else 1 + WordLength(s[1..])
  }

  function Fields(s: string): (words: seq<string>)
    ensures forall w :: w in words ==> IsScope(w)
    decreases |s|
  {
    if s == "" then []
    else if IsSpace(s[0]) then Fields(s[1..])
    else
      var n := WordLength(s);
      [s[..n]] + Fields(s[n..])
  }

  function Join(words: seq<string>): string {
    if |words| == 0 then ""
    else if |words| == 1 then words[0]
    else words[0] + " " + Join(words[1..])
  }

  function FieldsOfAll(words: seq<string>): seq<string> {
    if words == [] then [] else Fields(words[0]) + FieldsOfAll(words[1..])
  }

  predicate Subset(a: seq<string>, b: seq<string>) {
    forall x :: x in a ==> x in b
  }

  lemma {:induction false} WordLengthIs(s: string, n: nat)
    requires n <= |s|
    requires forall i :: 0 <= i < n ==> !IsSpace(s[i])
    requires n < |s| ==> IsSpace(s[n])
    ensures WordLength(s) == n
  {
    if n > 0 {
      WordLengthIs(s[1..], n - 1);
    }
  }

  lemma {:induction false} FieldsSplitAtSpace(a: string, b: string)
    ensures Fields(a + " " + b) == Fields(a) + Fields(b)
    decreases |a|
  {
    var whole := a + " " + b;
    if a == "" {
      assert whole[1..] == b;
    } else if IsSpace(a[0]) {
      assert whole[1..] == a[1..] + " " + b;
      FieldsSplitAtSpace(a[1..], b);
    } else {
      var n := WordLength(a);
      WordLengthIs(whole, n);
      assert whole[..n] == a[..n];
      assert whole[n..] == a[n..] + " " + b;
      FieldsSplitAtSpace(a[n..], b);
    }
  }

  /** Splitting what was joined splits each member: joining adds no word and loses none. */
  lemma {:induction false} FieldsOfJoin(words: seq<string>)
    ensures Fields(Join(words)) == FieldsOfAll(words)
  {
    if |words| > 1 {
      FieldsSplitAtSpace(words[0], Join(words[1..]));
      FieldsOfJoin(words[1..]);
    } else if |words| == 1 {
      assert FieldsOfAll(words[1..]) == [];
    }
  }

  lemma FieldsOfScope(s: string)
    requires IsScope(s)
    ensures Fields(s) == [s]
  {
    WordLengthIs(s, |s|);
    assert s[..|s|] == s;
  }

  lemma {:induction false} FieldsOfScopes(words: seq<string>)
    requires forall w :: w in words ==> IsScope(w)
    ensures FieldsOfAll(words) == words
  {
    if words != [] {
      FieldsOfScope(words[0]);
      FieldsOfScopes(words[1..]);
    }
  }

  /** A list survives being joined and split exactly when every member is one scope. */
  lemma SplitJoinRoundTrip(words: seq<string>)
    ensures Fields(Join(words)) == words <==> forall w :: w in words ==> IsScope(w)
  {
    if forall w :: w in words ==> IsScope(w) {
      FieldsOfJoin(words);
      FieldsOfScopes(words);
    }
  }

  lemma {:induction false} InFieldsOfAll(words: seq<string>, f: string)
    ensures f in FieldsOfAll(words) <==> exists w :: w in words && f in Fields(w)
  {
    if words != [] {
      InFieldsOfAll(words[1..], f);
      if f in Fields(words[0]) {
        assert words[0] in words;
      }
      forall w | w in words && f in Fields(w) ensures f in FieldsOfAll(words) {
        assert w == words[0] || w in words[1..];
      }
    }
  }

  /** Every word of a configured scope is itself one of the configured scopes. */
  predicate ClosedUnderSplitting(words: seq<string>) {
    forall w :: w in words ==> Subset(Fields(w), words)
  }

  /**
  A list joined and split again stays inside the list exactly when the list is closed under
  splitting: a configured scope holding a space may come apart into scopes nobody configured.
  */
  lemma SplitJoinStaysInside(words: seq<string>)
    ensures Subset(Fields(Join(words)), words) <==> ClosedUnderSplitting(words)
  {
    FieldsOfJoin(words);
    forall f ensures f in FieldsOfAll(words) <==> exists w :: w in words && f in Fields(w) {
      InFieldsOfAll(words, f);
    }
  }

  lemma ScopesAreClosed(words: seq<string>)
    requires forall w :: w in words ==> IsScope(w)
    ensures ClosedUnderSplitting(words)
  {
    forall w | w in words ensures Subset(Fields(w), words) {
      FieldsOfScope(w);
    }
  }
}
