/** JavaScript's `trim` and ASCII case folding. */
module Texts {
  /** `\s`, and what `trim` removes. */
  predicate IsSpace(c: char) {
    var n := c as int;
    9 <= n <= 13 || n == 32 || n == 160 || n == 5760 || 8192 <= n <= 8202 || n == 8232 || n == 8233
    || n == 8239 || n == 8287 || n == 12288 || n == 65279
  }

  predicate IsDigit(c: char) {
    '0' <= c <= '9'
  }

  predicate AllDigits(s: string, n: nat) {
    n <= |s| && forall i | 0 <= i < n :: IsDigit(s[i])
  }

  /** `^\d+$`. */
  predicate IsNumber(s: string) {
    s != "" && AllDigits(s, |s|)
  }

  function TrimStart(s: string): string {
    if s != "" && IsSpace(s[0]) then TrimStart(s[1..]) else s
  }

  function TrimEnd(s: string): string {
    if s != "" && IsSpace(s[|s| - 1]) then TrimEnd(s[..|s| - 1]) else s
  }

  function Trim(s: string): string {
    TrimEnd(TrimStart(s))
  }

  function Lower(c: char): char {
    if 'A' <= c <= 'Z' then (c as int + 32) as char else c
  }

  function Fold(s: string): (r: string)
    ensures |r| == |s| && forall i | 0 <= i < |s| :: r[i] == Lower(s[i])
  {
    if s == "" then "" else [Lower(s[0])] + Fold(s[1..])
  }

  lemma {:induction false} TrimStartIsSuffix(s: string)
    ensures forall ch <- TrimStart(s) :: ch in s
    ensures TrimStart(s) != "" ==> !IsSpace(TrimStart(s)[0])
  {
    if s != "" && IsSpace(s[0]) {
      TrimStartIsSuffix(s[1..]);
    }
  }

  lemma {:induction false} TrimEndIsPrefix(s: string)
    ensures TrimEnd(s) <= s
    ensures TrimEnd(s) != "" ==> !IsSpace(TrimEnd(s)[|TrimEnd(s)| - 1])
  {
    if s != "" && IsSpace(s[|s| - 1]) {
      TrimEndIsPrefix(s[..|s| - 1]);
    }
  }

  lemma TrimIsIdempotent(s: string)
    ensures Trim(Trim(s)) == Trim(s)
    ensures forall ch <- Trim(s) :: ch in s
  {
    TrimStartIsSuffix(s);
    TrimEndIsPrefix(TrimStart(s));
    var t := Trim(s);
    if t != "" {
      assert t[0] == TrimStart(s)[0];
      assert TrimStart(t) == t && TrimEnd(t) == t;
    }
  }

  ghost predicate Blank(s: string) {
    forall ch <- s :: IsSpace(ch)
  }

  lemma {:induction false} TrimStartDropsBlank(w: string, s: string)
    requires Blank(w)
    ensures TrimStart(w + s) == TrimStart(s)
  {
    if w == "" {
      assert w + s == s;
    } else {
      assert w[0] in w;
      assert (w + s)[1..] == w[1..] + s;
      TrimStartDropsBlank(w[1..], s);
    }
  }

  lemma {:induction false} TrimEndDropsBlank(s: string, w: string)
    requires Blank(w)
    ensures TrimEnd(s + w) == TrimEnd(s)
  {
    if w == "" {
      assert s + w == s;
    } else {
      assert w[|w| - 1] in w;
      assert (s + w)[..|s + w| - 1] == s + w[..|w| - 1];
      TrimEndDropsBlank(s, w[..|w| - 1]);
    }
  }

  lemma {:induction false} TrimStartKeepsTail(s: string, w: string)
    ensures TrimStart(s) != "" ==> TrimStart(s + w) == TrimStart(s) + w
    ensures TrimStart(s) == "" ==> TrimStart(s + w) == TrimStart(w)
  {
    if s == "" {
      assert s + w == w;
    } else {
      assert (s + w)[1..] == s[1..] + w;
      TrimStartKeepsTail(s[1..], w);
    }
  }

  /** Blanks around a text are not part of it. */
  lemma TrimIgnoresSurroundings(before: string, s: string, after: string)
    requires Blank(before) && Blank(after)
    ensures Trim(before + s + after) == Trim(s)
  {
    assert before + s + after == before + (s + after);
    TrimStartDropsBlank(before, s + after);
    TrimStartKeepsTail(s, after);
    if TrimStart(s) == "" {
      TrimStartDropsBlank(after, "");
      assert after + "" == after;
    } else {
      TrimEndDropsBlank(TrimStart(s), after);
    }
  }

  /** A front that neither begins nor ends in a blank survives trimming whatever follows it. */
  lemma {:induction false} TrimKeepsFront(front: string, tail: string)
    requires front != "" && !IsSpace(front[0]) && !IsSpace(front[|front| - 1])
    ensures front <= Trim(front + tail) <= front + tail
  {
    TrimEndKeepsFront(front, tail);
  }

  lemma {:induction false} TrimEndKeepsFront(front: string, tail: string)
    requires front != "" && !IsSpace(front[|front| - 1])
    ensures front <= TrimEnd(front + tail) <= front + tail
  {
    if tail == "" {
      assert front + tail == front;
    } else {
      assert (front + tail)[..|front + tail| - 1] == front + tail[..|tail| - 1];
      TrimEndKeepsFront(front, tail[..|tail| - 1]);
    }
  }

  lemma FoldOfTail(s: string)
    requires s != ""
    ensures Fold(s)[1..] == Fold(s[1..]) && Fold(s)[..|s| - 1] == Fold(s[..|s| - 1])
  {
  }

  lemma LowerKeepsBlanks(c: char)
    ensures IsSpace(Lower(c)) <==> IsSpace(c)
  {
  }

  /** Trimming and folding do not get in each other's way. */
  lemma {:induction false} FoldTrimStart(s: string)
    ensures TrimStart(Fold(s)) == Fold(TrimStart(s))
  {
    if s != "" {
      LowerKeepsBlanks(s[0]);
      FoldOfTail(s);
      if IsSpace(s[0]) { FoldTrimStart(s[1..]); }
    }
  }

  lemma {:induction false} FoldTrimEnd(s: string)
    ensures TrimEnd(Fold(s)) == Fold(TrimEnd(s))
  {
    if s != "" {
      LowerKeepsBlanks(s[|s| - 1]);
      FoldOfTail(s);
      if IsSpace(s[|s| - 1]) { FoldTrimEnd(s[..|s| - 1]); }
    }
  }

  lemma FoldTrim(s: string)
    ensures Trim(Fold(s)) == Fold(Trim(s))
  {
    FoldTrimStart(s);
    FoldTrimEnd(TrimStart(s));
  }

  lemma FoldTail(s: string, n: nat)
    requires n <= |s|
    ensures Fold(s[n..]) == Fold(s)[n..]
  {
  }

  lemma FoldKeepsDigits(s: string, n: nat)
    requires n <= |s|
    ensures AllDigits(Fold(s), n) <==> AllDigits(s, n)
  {
    forall i | 0 <= i < |s| ensures IsDigit(Fold(s)[i]) <==> IsDigit(s[i]) {
      LowerKeepsDigit(s[i]);
    }
  }

  lemma LowerKeepsDigit(c: char)
    ensures IsDigit(Lower(c)) <==> IsDigit(c)
  {
  }
}
