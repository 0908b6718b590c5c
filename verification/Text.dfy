/** Cutting text at a character. */
module Text {

  /** The text before the first c, or all of it: cut -d c -f 1, or [^c]* at the front. */
  function Before(s: string, c: char): (r: string)
    ensures |r| <= |s|
    ensures c in s ==> |r| < |s|
  {
    if s == "" || s[0] == c then "" else [s[0]] + Before(s[1..], c)
  }

  lemma SomethingBefore(s: string, c: char)
    requires s != "" && s[0] != c
    ensures Before(s, c) != ""
  {
  }

  /** It is a prefix, and ends where the first c is, if there is one. */
  lemma {:induction false} WhereCut(s: string, c: char)
    ensures Before(s, c) == s[..|Before(s, c)|]
    ensures c in s ==> s[|Before(s, c)|] == c
  {
    if s != "" && s[0] != c {
      WhereCut(s[1..], c);
      assert s == [s[0]] + s[1..];
    }
  }

  lemma {:induction false} NoneBefore(s: string, c: char)
    ensures c !in Before(s, c)
  {
    if s != "" && s[0] != c {
      NoneBefore(s[1..], c);
    }
  }

  lemma {:induction false} Untouched(s: string, c: char)
    requires c !in s
    ensures Before(s, c) == s
  {
    if s != "" {
      assert s == [s[0]] + s[1..];
      Untouched(s[1..], c);
    }
  }

  lemma {:induction false} CutAt(w: string, c: char, rest: string)
    requires c !in w && (rest == "" || rest[0] == c)
    ensures Before(w + rest, c) == w
  {
    if w == "" {
      assert w + rest == rest;
    } else {
      assert w == [w[0]] + w[1..];
      CutAt(w[1..], c, rest);
      assert (w + rest)[1..] == w[1..] + rest;
    }
  }

  lemma {:induction false} CutBeforeRest(a: string, c: char, b: string)
    requires b == "" || b[0] == c
    ensures Before(a + b, c) == Before(a, c)
  {
    if a == "" {
      assert a + b == b;
    } else if a[0] != c {
      CutBeforeRest(a[1..], c, b);
      assert (a + b)[1..] == a[1..] + b;
    }
  }

  /** A word that bash's echo takes for its options. */
  predicate EchoOption(s: string) {
    |s| > 1 && s[0] == '-' && forall k | 0 < k < |s| :: s[k] == 'n' || s[k] == 'e' || s[k] == 'E'
  }

  /** What echo prints of its only argument. */
  function Echo(s: string): string {
    if EchoOption(s) then "" else s
  }

  /** A dash followed by one or more of n, e and E is lost; everything else is printed. */
  lemma EchoMeaning(s: string, letters: string)
    ensures s == "-" + letters && letters != "" && (forall c | c in letters :: c == 'n' || c == 'e' || c == 'E') ==>
              Echo(s) == ""
    ensures Echo(s) == s || exists more :: s == "-" + more && more != ""
                                           && forall c | c in more :: c == 'n' || c == 'e' || c == 'E'
  {
    if s == "-" + letters && forall c | c in letters :: c == 'n' || c == 'e' || c == 'E' {
      assert forall k | 0 < k < |s| :: s[k] == letters[k - 1] && s[k] in letters;
    }
    if EchoOption(s) {
      assert s == "-" + s[1..];
    }
  }
}
