/** The text and byte operations that the two ends of the SCPI link take from their libraries.

    Bytes and ASCII characters are written alike: a byte is the character with the same code, a byte
    string is a `string`. */
module Bytes {

  type Pred = char -> bool

  /** `\s` of Java's regular expressions, and also what Python's `bytes.rstrip` strips. */
  predicate IsSpace(c: char) {
    c == ' ' || '\t' <= c <= '\r'
  }

  /** What Java's `String.trim` takes off: every character up to the blank. */
  predicate IsTrimmed(c: char) {
    c <= ' '
  }

  function DropLeft(s: string, p: Pred): (r: string)
    ensures |r| <= |s|
  {
    if s != "" && p(s[0]) then DropLeft(s[1..], p) else s
  }

  function DropRight(s: string, p: Pred): (r: string)
    ensures r <= s
  {
    if s != "" && p(s[|s| - 1]) then DropRight(s[..|s| - 1], p) else s
  }

  /** Java `s.trim()`. */
  function Trim(s: string): string {
    DropRight(DropLeft(s, IsTrimmed), IsTrimmed)
  }

  /** Python `s.rstrip()`. */
  function RStrip(s: string): string {
    DropRight(s, IsSpace)
  }

  /** Java `s.replaceAll("\\s*", "")`. */
  function RemoveSpace(s: string): string {
    if s == "" then "" else (if IsSpace(s[0]) then "" else [s[0]]) + RemoveSpace(s[1..])
  }

  /** The index of the first `c`, or the length when there is none. */
  function Find(s: string, c: char): (k: nat)
    ensures k <= |s|
    ensures forall i :: 0 <= i < k ==> s[i] != c
    ensures k < |s| ==> s[k] == c
  {
    if s == "" || s[0] == c then 0 else 1 + Find(s[1..], c)
  }

  predicate StartsWith(s: string, prefix: string) {
    prefix <= s
  }

  /** All pieces between the `;`, empty ones included: Python `s.split(";")`. */
  function SplitAll(s: string): (ps: seq<string>)
    ensures |ps| >= 1
  {
    if s == "" then [""]
    else
      var ps := SplitAll(s[1..]);
      if s[0] == ';' then [""] + ps else [[s[0]] + ps[0]] + ps[1..]
  }

  function DropEmptyTail(ps: seq<string>): seq<string> {
    if ps != [] && ps[|ps| - 1] == "" then DropEmptyTail(ps[..|ps| - 1]) else ps
  }

  /** Java `s.split(";")`: without a `;` the whole string, else the pieces up to the last non-empty one. */
  function JavaSplit(s: string): seq<string> {
    if ';' !in s then [s] else DropEmptyTail(SplitAll(s))
  }

  /** `";".join(ps)`. */
  function Join(ps: seq<string>): string {
    if ps == [] then "" else if |ps| == 1 then ps[0] else ps[0] + ";" + Join(ps[1..])
  }

  /** Java's split is the pieces up to the last that is not empty. */
  lemma {:induction false} DropEmptyTailParts(ps: seq<string>) returns (n: nat)
    ensures n <= |ps| && DropEmptyTail(ps) == ps[..n] && (n > 0 ==> ps[n - 1] != "")
    ensures forall i :: n <= i < |ps| ==> ps[i] == ""
  {
    n := |ps|;
    if ps == [] || ps[|ps| - 1] != "" {
    } else {
      n := DropEmptyTailParts(ps[..|ps| - 1]);
      assert ps[..|ps| - 1][..n] == ps[..n];
    }
  }

  // ----- Trimming

  lemma {:induction false} DropLeftKeepsEnd(s: string, p: Pred)
    ensures DropLeft(s, p) == s[|s| - |DropLeft(s, p)|..]
  {
    if s == "" || !p(s[0]) {
    } else {
      DropLeftKeepsEnd(s[1..], p);
    }
  }

  lemma {:induction false} DropRightParts(s: string, p: Pred)
    ensures DropRight(s, p) != "" ==> !p(DropRight(s, p)[|DropRight(s, p)| - 1])
    ensures forall i :: |DropRight(s, p)| <= i < |s| ==> p(s[i])
  {
    if s == "" || !p(s[|s| - 1]) {
    } else {
      DropRightParts(s[..|s| - 1], p);
    }
  }

  /** Nothing is stripped exactly when the last character may stay. */
  lemma DropRightFixed(s: string, p: Pred)
    ensures DropRight(s, p) == s <==> (s == "" || !p(s[|s| - 1]))
  {
    DropRightParts(s, p);
  }

  lemma {:induction false} DropRightAll(s: string, t: string, p: Pred)
    requires forall c <- t :: p(c)
    ensures DropRight(s + t, p) == DropRight(s, p)
  {
    if t == "" {
      assert s + t == s;
    } else {
      assert (s + t)[..|s + t| - 1] == s + t[..|t| - 1];
      DropRightAll(s, t[..|t| - 1], p);
    }
  }

  lemma {:induction false} DropLeftSnoc(s: string, c: char, p: Pred)
    ensures DropLeft(s + [c], p) ==
            if DropLeft(s, p) != "" then DropLeft(s, p) + [c] else if p(c) then "" else [c]
  {
    if s == "" {
      assert s + [c] == [c];
    } else if p(s[0]) {
      assert (s + [c])[1..] == s[1..] + [c];
      DropLeftSnoc(s[1..], c, p);
    }
  }

  /** A trimmed character at either end does not matter to `Trim`. */
  lemma TrimEnds(s: string, c: char)
    requires IsTrimmed(c)
    ensures Trim([c] + s) == Trim(s) && Trim(s + [c]) == Trim(s)
  {
    assert ([c] + s)[1..] == s;
    DropLeftSnoc(s, c, IsTrimmed);
    var l := DropLeft(s, IsTrimmed);
    assert (l + [c])[..|l|] == l;
  }

  // ----- Splitting and joining

  lemma JoinLonger(x: string, p: string, rest: seq<string>)
    ensures Join([x + p] + rest) == x + Join([p] + rest)
  {
    if rest != [] {
      assert ([x + p] + rest)[1..] == rest == ([p] + rest)[1..];
      assert x + p + ";" + Join(rest) == x + (p + ";" + Join(rest));
    }
  }

  lemma JoinEmptyFirst(ps: seq<string>)
    requires ps != []
    ensures Join([""] + ps) == ";" + Join(ps)
  {
    assert ([""] + ps)[1..] == ps;
    assert "" + ";" == ";";
  }

  lemma {:induction false} SplitParts(s: string)
    ensures forall p <- SplitAll(s) :: ';' !in p
    ensures Join(SplitAll(s)) == s
    ensures |SplitAll(s)| == 1 <==> ';' !in s
  {
    hide Join;
    if s == "" {
      JoinOne("");
    } else {
      SplitParts(s[1..]);
      var ps := SplitAll(s[1..]);
      assert s == [s[0]] + s[1..];
      if s[0] == ';' {
        JoinEmptyFirst(ps);
      } else {
        JoinLonger([s[0]], ps[0], ps[1..]);
        assert [ps[0]] + ps[1..] == ps;
      }
    }
  }

  lemma JoinOne(p: string)
    ensures Join([p]) == p
  {
  }

  lemma {:induction false} SplitPlain(s: string)
    requires ';' !in s
    ensures SplitAll(s) == [s]
  {
    if s == "" {
    } else {
      SplitPlain(s[1..]);
      assert [s[0]] + s[1..] == s;
    }
  }

  lemma {:induction false} SplitFirst(a: string, b: string)
    requires ';' !in a
    ensures SplitAll(a + ";" + b) == [a] + SplitAll(b)
  {
    if a == "" {
      assert a + ";" + b == ";" + b;
    } else {
      SplitFirst(a[1..], b);
      assert (a + ";" + b)[1..] == a[1..] + ";" + b;
      assert [a[0]] + a[1..] == a;
    }
  }

  lemma {:induction false} SplitJoinForward(ps: seq<string>)
    requires ps != [] && forall p <- ps :: ';' !in p
    ensures SplitAll(Join(ps)) == ps
  {
    if |ps| == 1 {
      SplitPlain(ps[0]);
    } else {
      SplitJoinForward(ps[1..]);
      SplitFirst(ps[0], Join(ps[1..]));
    }
  }

  /** Splitting undoes joining exactly for lists whose members hold no separator. */
  lemma SplitInvertsJoin(ps: seq<string>)
    requires ps != []
    ensures SplitAll(Join(ps)) == ps <==> forall p <- ps :: ';' !in p
  {
    if forall p <- ps :: ';' !in p {
      SplitJoinForward(ps);
    }
    SplitParts(Join(ps));
  }

  lemma SplitCons(c: char, s: string)
    ensures var ps := SplitAll(s);
      SplitAll([c] + s) == if c == ';' then [""] + ps else [[c] + ps[0]] + ps[1..]
  {
    assert ([c] + s)[1..] == s;
  }

  lemma {:induction false} SplitSnoc(s: string, c: char)
    requires c != ';'
    ensures var ps := SplitAll(s); SplitAll(s + [c]) == ps[..|ps| - 1] + [ps[|ps| - 1] + [c]]
  {
    if s == "" {
      assert s + [c] == [c];
      SplitPlain([c]);
    } else {
      hide SplitAll;
      var d, rest := s[0], s[1..];
      assert s == [d] + rest && s + [c] == [d] + (rest + [c]);
      SplitCons(d, rest);
      SplitCons(d, rest + [c]);
      SplitSnoc(rest, c);
      var qs, m := SplitAll(rest), |SplitAll(rest)| - 1;
      if d == ';' {
        assert ([""] + qs)[..m + 1] == [""] + qs[..m];
      } else if m == 0 {
        assert [d] + (qs[0] + [c]) == [d] + qs[0] + [c];
      } else {
        assert ([[d] + qs[0]] + qs[1..])[..m] == [[d] + qs[0]] + qs[1..m];
      }
    }
  }

  /** With something other than a separator at the end, Java's split drops nothing. */
  lemma JavaSplitKeepsAll(s: string, c: char)
    requires c != ';'
    ensures JavaSplit(s + [c]) == SplitAll(s + [c])
  {
    SplitSnoc(s, c);
    if ';' !in s + [c] {
      SplitPlain(s + [c]);
    }
  }
}
