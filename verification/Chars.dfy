/** Characters and trimming, as `str::trim` understands white space. */
module Chars {

  /** The Unicode property White_Space. */
  predicate White(c: char) {
    var n := c as int;
    || 0x9 <= n <= 0xD || n == 0x20 || n == 0x85 || n == 0xA0 || n == 0x1680
    || 0x2000 <= n <= 0x200A || n == 0x2028 || n == 0x2029 || n == 0x202F || n == 0x205F || n == 0x3000
  }

  predicate AsciiAlnum(c: char) { '0' <= c <= '9' || 'a' <= c <= 'z' || 'A' <= c <= 'Z' }

  predicate AllWhite(s: string) { forall i :: 0 <= i < |s| ==> White(s[i]) }

  /** Neither end is white. */
  predicate Tight(s: string) { s != [] ==> !White(s[0]) && !White(s[|s| - 1]) }

  function TrimStart(s: string): string {
    if s != [] && White(s[0]) then TrimStart(s[1..]) else s
  }

  function TrimEnd(s: string): string {
    if s != [] && White(s[|s| - 1]) then TrimEnd(s[..|s| - 1]) else s
  }

  function Trim(s: string): string { TrimEnd(TrimStart(s)) }

  lemma {:induction false} StartPart(s: string) returns (a: string)
    ensures s == a + TrimStart(s) && AllWhite(a)
    ensures TrimStart(s) != [] ==> !White(TrimStart(s)[0])
  {
    a := [];
    if s != [] && White(s[0]) {
      a := StartPart(s[1..]);
      a := [s[0]] + a;
    }
  }

  lemma {:induction false} EndPart(s: string) returns (b: string)
    ensures s == TrimEnd(s) + b && AllWhite(b)
    ensures TrimEnd(s) != [] ==> !White(TrimEnd(s)[|TrimEnd(s)| - 1])
  {
    b := [];
    if s != [] && White(s[|s| - 1]) {
      b := EndPart(s[..|s| - 1]);
      b := b + [s[|s| - 1]];
    }
  }

  /** Trimming takes white space off both ends and nothing else. */
  lemma TrimParts(s: string) returns (a: string, b: string)
    ensures s == a + Trim(s) + b && AllWhite(a) && AllWhite(b)
    ensures Tight(Trim(s))
  {
    a := StartPart(s);
    b := EndPart(TrimStart(s));
    assert s == a + (Trim(s) + b) == a + Trim(s) + b;
  }

  lemma TightIsTrimmed(s: string)
    requires Tight(s)
    ensures Trim(s) == s
  {
  }

  lemma TrimTwice(s: string)
    ensures Trim(Trim(s)) == Trim(s)
  {
    var a, b := TrimParts(s);
  }

  lemma {:induction false} TrimEndOf(t: string, b: string)
    requires AllWhite(b) && (t != [] ==> !White(t[|t| - 1]))
    ensures TrimEnd(t + b) == t
  {
    if b == [] {
      assert t + b == t;
    } else {
      assert (t + b)[..|t + b| - 1] == t + b[..|b| - 1];
      TrimEndOf(t, b[..|b| - 1]);
    }
  }

  lemma {:induction false} TrimStartOf(a: string, t: string)
    requires AllWhite(a) && (t != [] ==> !White(t[0]))
    ensures TrimStart(a + t) == t
  {
    if a == [] {
      assert a + t == t;
    } else {
      assert (a + t)[1..] == a[1..] + t;
      TrimStartOf(a[1..], t);
    }
  }

  /** Text between white space is what trimming leaves. */
  lemma TrimAround(a: string, t: string, b: string)
    requires AllWhite(a) && AllWhite(b) && Tight(t) && t != []
    ensures Trim(a + t + b) == t
  {
    assert a + t + b == a + (t + b);
    TrimStartOf(a, t + b);
    TrimEndOf(t, b);
  }

  predicate Blank(s: string) { Trim(s) == [] }

  lemma BlankIsWhite(s: string)
    ensures Blank(s) <==> AllWhite(s)
  {
    var a, b := TrimParts(s);
    if Trim(s) != [] {
      assert !White(s[|a|]);
    }
  }

  function CharWidth(c: char): nat {
    var n := c as int;
    if n < 0x80 then 1 else if n < 0x800 then 2 else if n < 0x1_0000 then 3 else 4
  }

  /** Length in bytes, as `str::len` counts. */
  function ByteLength(s: string): nat { if s == [] then 0 else CharWidth(s[0]) + ByteLength(s[1..]) }
}
