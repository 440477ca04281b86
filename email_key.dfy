/**
 The storage key of a signed-in user: the user's email with every `.`
 replaced by `_dot_` and then every `@` replaced by `_at_`, as two global
 string replacements applied one after the other.
 */
module EmailKey {

  /** Number of occurrences of the character `c` in `s`. */
  function Count(s: string, c: char): nat
  {
    if s == [] then 0 else (if s[0] == c then 1 else 0) + Count(s[1..], c)
  }

  /** `s.replace(/c/g, rep)` for a single literal character `c` and a
      replacement without `$` patterns: every occurrence of `c`, scanned
      left to right, is replaced by `rep`. */
  function ReplaceAll(s: string, c: char, rep: string): (r: string)
    ensures c !in rep ==> c !in r
  {
    if s == [] then []
    else (if s[0] == c then rep else [s[0]]) + ReplaceAll(s[1..], c, rep)
  }

  /** Each occurrence of `c` turns into `|rep|` characters. */
  lemma {:induction false} ReplaceAllLength(s: string, c: char, rep: string)
    ensures |ReplaceAll(s, c, rep)| + Count(s, c) == |s| + Count(s, c) * |rep|
  {
    if s != [] {
      ReplaceAllLength(s[1..], c, rep);
    }
  }

  /** The key derived from an email: dots first, then at-signs. */
  function SanitizeEmail(email: string): (key: string)
    ensures '.' !in key && '@' !in key
  {
    var noDots := ReplaceAll(email, '.', "_dot_");
    ReplaceAllKeepsAbsent(noDots, '@', "_at_", '.');
    ReplaceAll(noDots, '@', "_at_")
  }

  /** Reference definition: the key as a per-character translation. */
  function Escape(c: char): string
  {
    if c == '.' then "_dot_" else if c == '@' then "_at_" else [c]
  }

  function EscapeEach(s: string): string
  {
    if s == [] then [] else Escape(s[0]) + EscapeEach(s[1..])
  }

  lemma {:induction false} CountAppend(s: string, t: string, c: char)
    ensures Count(s + t, c) == Count(s, c) + Count(t, c)
  {
    if s == [] {
      assert s + t == t;
    } else {
      assert (s + t)[1..] == s[1..] + t;
      CountAppend(s[1..], t, c);
    }
  }

  /** Replacing `c` changes the number of occurrences of no other character
      that the replacement text does not contain. */
  lemma {:induction false} ReplaceAllKeepsCount(s: string, c: char, rep: string, d: char)
    requires d != c && d !in rep
    ensures Count(ReplaceAll(s, c, rep), d) == Count(s, d)
  {
    if s != [] {
      var head := if s[0] == c then rep else [s[0]];
      ReplaceAllKeepsCount(s[1..], c, rep, d);
      CountAppend(head, ReplaceAll(s[1..], c, rep), d);
      if s[0] == c {
        CountZero(rep, d);
      } else {
        assert head[1..] == [];
      }
    }
  }

  lemma {:induction false} CountZero(s: string, c: char)
    ensures Count(s, c) == 0 <==> c !in s
  {
    if s != [] {
      CountZero(s[1..], c);
      assert s == [s[0]] + s[1..];
    }
  }

  lemma ReplaceAllKeepsAbsent(s: string, c: char, rep: string, d: char)
    requires d != c && d !in rep
    ensures d !in s ==> d !in ReplaceAll(s, c, rep)
  {
    ReplaceAllKeepsCount(s, c, rep, d);
    CountZero(s, d);
    CountZero(ReplaceAll(s, c, rep), d);
  }

  lemma {:induction false} ReplaceAllAppend(s: string, t: string, c: char, rep: string)
    ensures ReplaceAll(s + t, c, rep) == ReplaceAll(s, c, rep) + ReplaceAll(t, c, rep)
  {
    if s == [] {
      assert s + t == t;
    } else {
      assert (s + t)[0] == s[0];
      assert (s + t)[1..] == s[1..] + t;
      ReplaceAllAppend(s[1..], t, c, rep);
    }
  }

  /** A string without `c` is left unchanged by replacing `c`. */
  lemma {:induction false} ReplaceAllIdentity(s: string, c: char, rep: string)
    requires c !in s
    ensures ReplaceAll(s, c, rep) == s
  {
    if s != [] {
      ReplaceAllIdentity(s[1..], c, rep);
    }
  }

  /** The two chained replacements equal one per-character translation:
      `.` becomes `_dot_`, `@` becomes `_at_`, every other character stays,
      in the original order. */
  lemma {:induction false} SanitizeIsEscapeEach(email: string)
    ensures SanitizeEmail(email) == EscapeEach(email)
  {
    if email != [] {
      var c, rest := email[0], email[1..];
      var head := if c == '.' then "_dot_" else [c];
      assert ReplaceAll(email, '.', "_dot_") == head + ReplaceAll(rest, '.', "_dot_");
      ReplaceAllAppend(head, ReplaceAll(rest, '.', "_dot_"), '@', "_at_");
      if c == '.' {
        ReplaceAllIdentity(head, '@', "_at_");
      } else {
        assert ReplaceAll(head, '@', "_at_") == Escape(c);
      }
      SanitizeIsEscapeEach(rest);
    }
  }

  /** The key is longer than the email by four per `.` and three per `@`. */
  lemma SanitizeLength(email: string)
    ensures |SanitizeEmail(email)| == |email| + 4 * Count(email, '.') + 3 * Count(email, '@')
  {
    var noDots := ReplaceAll(email, '.', "_dot_");
    ReplaceAllLength(email, '.', "_dot_");
    ReplaceAllLength(noDots, '@', "_at_");
    ReplaceAllKeepsCount(email, '.', "_dot_", '@');
  }

  /** An email with no `.` and no `@` is its own key. */
  lemma SanitizeIdentity(email: string)
    requires '.' !in email && '@' !in email
    ensures SanitizeEmail(email) == email
  {
    ReplaceAllIdentity(email, '.', "_dot_");
    ReplaceAllIdentity(email, '@', "_at_");
  }

  /** Deriving the key of a key gives the key back. */
  lemma SanitizeIdempotent(email: string)
    ensures SanitizeEmail(SanitizeEmail(email)) == SanitizeEmail(email)
  {
    SanitizeIdentity(SanitizeEmail(email));
  }

  lemma {:induction false} EscapeEachAppend(s: string, t: string)
    ensures EscapeEach(s + t) == EscapeEach(s) + EscapeEach(t)
  {
    if s == [] {
      assert s + t == t;
    } else {
      assert (s + t)[0] == s[0];
      assert (s + t)[1..] == s[1..] + t;
      EscapeEachAppend(s[1..], t);
    }
  }

  /** The key of a concatenation is the concatenation of the keys. */
  lemma SanitizeAppend(s: string, t: string)
    ensures SanitizeEmail(s + t) == SanitizeEmail(s) + SanitizeEmail(t)
  {
    SanitizeIsEscapeEach(s + t);
    SanitizeIsEscapeEach(s);
    SanitizeIsEscapeEach(t);
    EscapeEachAppend(s, t);
  }

  lemma SanitizeChar(c: char)
    ensures SanitizeEmail([c]) == Escape(c)
  {
    SanitizeIsEscapeEach([c]);
    assert EscapeEach([c]) == Escape(c) + EscapeEach([]);
  }

  lemma DotKeys()
    ensures SanitizeEmail(".") == "_dot_" && SanitizeEmail("_dot_") == "_dot_"
  {
    SanitizeChar('.');
    SanitizeIdentity("_dot_");
  }

  lemma AtKeys()
    ensures SanitizeEmail("@") == "_at_" && SanitizeEmail("_at_") == "_at_"
  {
    SanitizeChar('@');
    SanitizeIdentity("_at_");
  }

  /** The derivation is not injective: an email holding the literal text
      `_dot_` has the same key as the email with a `.` in its place. */
  lemma KeyCollisionDot(s: string, t: string)
    ensures s + "." + t != s + "_dot_" + t
    ensures SanitizeEmail(s + "." + t) == SanitizeEmail(s + "_dot_" + t)
  {
    assert |s + "." + t| != |s + "_dot_" + t|;
    SanitizeAppend(s + ".", t);
    SanitizeAppend(s, ".");
    SanitizeAppend(s + "_dot_", t);
    SanitizeAppend(s, "_dot_");
    DotKeys();
  }

  /** Likewise for the literal text `_at_` and an `@`. */
  lemma KeyCollisionAt(s: string, t: string)
    ensures s + "@" + t != s + "_at_" + t
    ensures SanitizeEmail(s + "@" + t) == SanitizeEmail(s + "_at_" + t)
  {
    assert |s + "@" + t| != |s + "_at_" + t|;
    SanitizeAppend(s + "@", t);
    SanitizeAppend(s, "@");
    SanitizeAppend(s + "_at_", t);
    SanitizeAppend(s, "_at_");
    AtKeys();
  }

  /** Two distinct emails that share the key `a_dot_b`. */
  lemma DistinctEmailsShareKey()
    ensures "a.b" != "a_dot_b" && SanitizeEmail("a.b") == SanitizeEmail("a_dot_b")
  {
    KeyCollisionDot("a", "b");
    assert "a" + "." + "b" == "a.b";
    assert "a" + "_dot_" + "b" == "a_dot_b";
  }

  /** The key of an address `a.b@c.d` whose four parts hold no `.` or `@`. */
  lemma KeyOfDottedAddress(a: string, b: string, c: string, d: string)
    requires '.' !in a && '@' !in a && '.' !in b && '@' !in b
    requires '.' !in c && '@' !in c && '.' !in d && '@' !in d
    ensures SanitizeEmail((a + "." + b) + "@" + (c + "." + d))
         == (a + "_dot_" + b) + "_at_" + (c + "_dot_" + d)
  {
    SanitizeAppend(a + "." + b + "@", c + "." + d);
    SanitizeAppend(a + "." + b, "@");
    AtKeys();
    KeyOfDotted(a, b);
    KeyOfDotted(c, d);
  }

  lemma KeyOfDotted(a: string, b: string)
    requires '.' !in a && '@' !in a && '.' !in b && '@' !in b
    ensures SanitizeEmail(a + "." + b) == a + "_dot_" + b
  {
    SanitizeAppend(a + ".", b);
    SanitizeAppend(a, ".");
    DotKeys();
    SanitizeIdentity(a);
    SanitizeIdentity(b);
  }

  /** The worked example of the key derivation: both dots of the email,
      the one in the domain included, become `_dot_`. The email is a
      parameter fixed by the precondition rather than a literal in the
      postcondition, which keeps the verifier from unfolding the recursive
      definitions on the literal. */
  lemma SanitizeExample(email: string)
    requires email == "a.b@c.com"
    ensures SanitizeEmail(email) == "a_dot_b_at_c_dot_com"
  {
    var a, b, c, com := "a", "b", "c", "com";
    assert email == (a + "." + b) + "@" + (c + "." + com);
    KeyOfDottedAddress(a, b, c, com);
    assert a + "_dot_" + b == "a_dot_b";
    assert c + "_dot_" + com == "c_dot_com";
    assert "a_dot_b" + "_at_" + "c_dot_com" == "a_dot_b_at_c_dot_com";
  }

  /** Every character other than `.` and `@` passes into the key. */
  lemma {:induction false} EscapeEachKeeps(s: string, c: char)
    requires c != '.' && c != '@' && c in s
    ensures c in EscapeEach(s)
  {
    if s[0] == c {
      assert EscapeEach(s)[0] == c;
    } else {
      EscapeEachKeeps(s[1..], c);
      assert EscapeEach(s) == Escape(s[0]) + EscapeEach(s[1..]);
    }
  }
}
