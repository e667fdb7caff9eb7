/** Splitting, joining and stripping of strings, as Python's `str` methods do it. */
module Strings {

  function Split(s: string, c: char): (parts: seq<string>)
    ensures |parts| >= 1
  {
    if s == "" then [""]
    else if s[0] == c then [""] + Split(s[1..], c)
    else
      var rest := Split(s[1..], c);
      [[s[0]] + rest[0]] + rest[1..]
  }

  function Join(parts: seq<string>, c: char): string
    requires |parts| >= 1
  {
    if |parts| == 1 then parts[0] else parts[0] + [c] + Join(parts[1..], c)
  }

  lemma {:induction false} SplitParts(s: string, c: char)
    ensures forall p | p in Split(s, c) :: c !in p
  {
    if s != "" {
      SplitParts(s[1..], c);
      var rest := Split(s[1..], c);
      assert forall p | p in rest[1..] :: p in rest;
      assert rest[0] in rest;
    }
  }

  lemma {:induction false} JoinOfSplit(s: string, c: char)
    ensures Join(Split(s, c), c) == s
  {
    if s != "" {
      var rest := Split(s[1..], c);
      JoinOfSplit(s[1..], c);
      assert Split(s, c)[1..] == if s[0] == c then rest else rest[1..];
    }
  }

  lemma {:induction false} SplitOfPlain(s: string, c: char)
    requires c !in s
    ensures Split(s, c) == [s]
  {
    if s != "" {
      SplitOfPlain(s[1..], c);
      assert [s[0]] + s[1..] == s;
    }
  }

  lemma {:induction false} SplitOfConcat(a: string, b: string, c: char)
    ensures Split(a + [c] + b, c) == Split(a, c) + Split(b, c)
  {
    if a == "" {
      assert a + [c] + b == [c] + b;
    } else {
      assert (a + [c] + b)[1..] == a[1..] + [c] + b;
      SplitOfConcat(a[1..], b, c);
    }
  }

  lemma JoinStep(parts: seq<string>, c: char)
    requires |parts| >= 1
    ensures Join(parts, c) == if |parts| == 1 then parts[0] else parts[0] + [c] + Join(parts[1..], c)
  {
  }

  lemma {:induction false} SplitOfJoin(parts: seq<string>, c: char)
    requires |parts| >= 1 && forall p | p in parts :: c !in p
    ensures Split(Join(parts, c), c) == parts
  {
    hide Split, Join;
    JoinStep(parts, c);
    assert parts[0] in parts;
    SplitOfPlain(parts[0], c);
    if |parts| == 1 {
      assert parts == [parts[0]];
    } else {
      assert forall p | p in parts[1..] :: p in parts;
      SplitOfJoin(parts[1..], c);
      SplitOfConcat(parts[0], Join(parts[1..], c), c);
      assert parts == [parts[0]] + parts[1..];
    }
  }

  lemma {:induction false} JoinOfConcat(a: seq<string>, b: seq<string>, c: char)
    requires |a| >= 1 && |b| >= 1
    ensures Join(a + b, c) == Join(a, c) + [c] + Join(b, c)
  {
    if |a| == 1 {
      assert (a + b)[1..] == b;
    } else {
      assert (a + b)[1..] == a[1..] + b;
      JoinOfConcat(a[1..], b, c);
    }
  }

  lemma {:induction false} JoinEnd(parts: seq<string>, c: char)
    requires |parts| >= 1 && parts[|parts| - 1] != ""
    ensures Join(parts, c) != "" && Join(parts, c)[|Join(parts, c)| - 1] == parts[|parts| - 1][|parts[|parts| - 1]| - 1]
  {
    if |parts| > 1 {
      JoinEnd(parts[1..], c);
    }
  }

  // `s` starts with `a` and a separator exactly when its parts extend those of `a`.
  lemma StartsWithParts(s: string, a: string, c: char)
    ensures a + [c] <= s <==> Split(a, c) < Split(s, c)
  {
    hide Split, Join;
    if a + [c] <= s {
      var b := s[|a| + 1..];
      assert s == a + [c] + b;
      SplitOfConcat(a, b, c);
    }
    if Split(a, c) < Split(s, c) {
      var b := Split(s, c)[|Split(a, c)|..];
      JoinOfConcat(Split(a, c), b, c);
      assert Split(s, c) == Split(a, c) + b;
      JoinOfSplit(a, c);
      JoinOfSplit(s, c);
    }
  }

  // ------------------------------------------------------------------ stripping

  function StripLeft(s: string, drop: char -> bool): string {
    if s != "" && drop(s[0]) then StripLeft(s[1..], drop) else s
  }

  function StripRight(s: string, drop: char -> bool): string {
    if s != "" && drop(s[|s| - 1]) then StripRight(s[..|s| - 1], drop) else s
  }

  function Strip(s: string, drop: char -> bool): string {
    StripRight(StripLeft(s, drop), drop)
  }

  predicate IsStripped(s: string, drop: char -> bool) {
    s != "" ==> !drop(s[0]) && !drop(s[|s| - 1])
  }

  lemma StripOfStripped(s: string, drop: char -> bool)
    requires IsStripped(s, drop)
    ensures Strip(s, drop) == s
  {
  }

  lemma {:induction false} StripRightKeepsHead(s: string, drop: char -> bool)
    ensures StripRight(s, drop) <= s
    ensures StripRight(s, drop) != "" ==> !drop(StripRight(s, drop)[|StripRight(s, drop)| - 1])
  {
    if s != "" && drop(s[|s| - 1]) {
      StripRightKeepsHead(s[..|s| - 1], drop);
    }
  }

  lemma {:induction false} StripLeftHead(s: string, drop: char -> bool)
    ensures StripLeft(s, drop) != "" ==> !drop(StripLeft(s, drop)[0])
    ensures forall c | c in StripLeft(s, drop) :: c in s
  {
    if s != "" && drop(s[0]) {
      StripLeftHead(s[1..], drop);
    }
  }

  lemma StripIsStripped(s: string, drop: char -> bool)
    ensures IsStripped(Strip(s, drop), drop)
    ensures forall c | c in Strip(s, drop) :: c in s
  {
    StripLeftHead(s, drop);
    StripRightKeepsHead(StripLeft(s, drop), drop);
  }
}
