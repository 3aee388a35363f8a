/** Text edits of the CSV reader and writer: trimming, and the in-place
    replacement that escapes and unescapes quotes. */
module CsvText {
  import opened Options

  const QUOTE := '\"'

  predicate IsSpace(c: char) {
    c == ' ' || '\t' <= c <= '\r'
  }

  function TrimLeft(s: string): string {
    if s != [] && IsSpace(s[0]) then TrimLeft(s[1..]) else s
  }

  function TrimRight(s: string): string {
    if s != [] && IsSpace(s[|s| - 1]) then TrimRight(s[..|s| - 1]) else s
  }

  predicate OccursAt(s: string, search: string, i: nat) {
    i + |search| <= |s| && s[i..i + |search|] == search
  }

  /** Every leftmost, non-overlapping occurrence of `search` replaced. */
  function ReplaceAll(s: string, search: string, replacement: string): string
    requires search != []
  {
    if |s| < |search| then s
    else if OccursAt(s, search, 0) then replacement + ReplaceAll(s[|search|..], search, replacement)
    else [s[0]] + ReplaceAll(s[1..], search, replacement)
  }

  /** Replacement leaves everything before the first occurrence alone. */
  lemma {:induction false} ReplaceAllSkips(s: string, search: string, replacement: string, n: nat)
    requires search != [] && n <= |s|
    requires forall i :: 0 <= i < n ==> !OccursAt(s, search, i)
    ensures ReplaceAll(s, search, replacement) == s[..n] + ReplaceAll(s[n..], search, replacement)
  {
    if n == 0 {
      assert s[n..] == s;
    } else if |s| < |search| {
      assert |s[n..]| < |search|;
    } else {
      var t := s[1..];
      forall i | 0 <= i < n - 1
        ensures !OccursAt(t, search, i)
      {
        assert !OccursAt(s, search, i + 1);
        if i + |search| <= |t| {
          assert t[i..i + |search|] == s[i + 1..i + 1 + |search|];
        }
      }
      ReplaceAllSkips(t, search, replacement, n - 1);
      assert !OccursAt(s, search, 0);
      assert t[n - 1..] == s[n..];
      assert s[..n] == [s[0]] + t[..n - 1];
    }
  }

  method Find(s: string, search: string, from: nat) returns (at: Option<nat>)
    requires from <= |s|
    ensures at.Some? ==> from <= at.value && OccursAt(s, search, at.value)
    ensures forall i :: from <= i < (if at.Some? then at.value else |s|) ==> !OccursAt(s, search, i)
  {
    var i := from;
    while i < |s|
      invariant from <= i <= |s|
      invariant forall j :: from <= j < i ==> !OccursAt(s, search, j)
    {
      if OccursAt(s, search, i) {
        return Some(i);
      }
      i := i + 1;
    }
    return None;
  }

  lemma SkipsFrom(s: string, search: string, replacement: string, pos: nat, at: nat)
    requires search != [] && pos <= at <= |s|
    requires forall i :: pos <= i < at ==> !OccursAt(s, search, i)
    ensures ReplaceAll(s[pos..], search, replacement) == s[pos..at] + ReplaceAll(s[at..], search, replacement)
    ensures at == |s| ==> ReplaceAll(s[pos..], search, replacement) == s[pos..]
  {
    var rest := s[pos..];
    forall i | 0 <= i < at - pos
      ensures !OccursAt(rest, search, i)
    {
      assert !OccursAt(s, search, pos + i);
      if i + |search| <= |rest| {
        assert rest[i..i + |search|] == s[pos + i..pos + i + |search|];
      }
    }
    ReplaceAllSkips(rest, search, replacement, at - pos);
    assert rest[..at - pos] == s[pos..at] && rest[at - pos..] == s[at..];
  }

  lemma ReplacesAt(s: string, search: string, replacement: string, at: nat)
    requires search != [] && OccursAt(s, search, at)
    ensures ReplaceAll(s[at..], search, replacement)
         == replacement + ReplaceAll(s[at + |search|..], search, replacement)
  {
    assert s[at..][|search|..] == s[at + |search|..];
    assert OccursAt(s[at..], search, 0);
  }

  /** The search resumes behind each replacement, so it ends for every nonempty
      search text, also when the replacement contains it. */
  method ReplaceString(s: string, search: string, replacement: string) returns (r: string)
    requires search != []
    ensures r == ReplaceAll(s, search, replacement)
  {
    r := s;
    hide ReplaceAll, OccursAt;
    var pos: nat := 0;
    ghost var done := "";
    assert r[0..] == s;
    while true
      invariant pos <= |r| && r[..pos] == done
      invariant done + ReplaceAll(r[pos..], search, replacement) == ReplaceAll(s, search, replacement)
      decreases |r| - pos
    {
      var found := Find(r, search, pos);
      if found.None? {
        SkipsFrom(r, search, replacement, pos, |r|);
        assert r == done + r[pos..];
        break;
      }
      var at := found.value;
      SkipsFrom(r, search, replacement, pos, at);
      ReplacesAt(r, search, replacement, at);
      ghost var skipped, after := r[pos..at], r[at + |search|..];
      assert r[..at] == done + skipped;
      r := r[..at] + replacement + r[at + |search|..];
      pos := at + |replacement|;
      done := done + skipped + replacement;
      assert r[pos..] == after;
    }
  }

  function Escape(s: string): string {
    ReplaceAll(s, [QUOTE], [QUOTE, QUOTE])
  }

  function Unescape(s: string): string {
    ReplaceAll(s, [QUOTE, QUOTE], [QUOTE])
  }

  lemma EscapeFront(s: string)
    requires s != []
    ensures Escape(s) == (if s[0] == QUOTE then [QUOTE, QUOTE] else [s[0]]) + Escape(s[1..])
  {
    assert s[0..1] == [s[0]];
  }

  lemma UnescapeFront(c: char, s: string)
    ensures c != QUOTE ==> Unescape([c] + s) == [c] + Unescape(s)
    ensures Unescape([QUOTE, QUOTE] + s) == [QUOTE] + Unescape(s)
  {
    var t, u := [c] + s, [QUOTE, QUOTE] + s;
    assert u[0..2] == [QUOTE, QUOTE] && u[2..] == s;
    assert t[1..] == s;
    if c != QUOTE && s != [] {
      assert t[0..2][0] == c;
    }
  }

  /** A quote that is not doubled is kept. */
  lemma UnescapeLone(c: char, s: string)
    requires c != QUOTE
    ensures Unescape([QUOTE, c] + s) == [QUOTE, c] + Unescape(s) && Unescape([QUOTE]) == [QUOTE]
  {
    var t := [QUOTE, c] + s;
    assert t[0..2] == [QUOTE, c] && t[1..] == [c] + s;
    UnescapeFront(c, s);
  }

  /** Halving doubled quotes undoes doubling every quote, for every text. */
  lemma {:induction false} UnescapeInvertsEscape(s: string)
    ensures Unescape(Escape(s)) == s
  {
    if s != [] {
      EscapeFront(s);
      UnescapeInvertsEscape(s[1..]);
      UnescapeFront(s[0], Escape(s[1..]));
    }
  }

  function Count(s: string, c: char): nat {
    if s == "" then 0 else Count(s[..|s| - 1], c) + if s[|s| - 1] == c then 1 else 0
  }

  lemma {:induction false} CountConcat(a: string, b: string, c: char)
    ensures Count(a + b, c) == Count(a, c) + Count(b, c)
    decreases |b|
  {
    if b == "" {
      assert a + b == a;
    } else {
      CountConcat(a, b[..|b| - 1], c);
      assert (a + b)[..|a + b| - 1] == a + b[..|b| - 1];
    }
  }

  lemma CountOne(x: char, c: char)
    ensures Count([x], c) == if x == c then 1 else 0
  {
    assert [x][..0] == "";
  }

  lemma {:induction false} CountHolds(s: string, c: char)
    ensures Count(s, c) > 0 <==> c in s
    decreases |s|
  {
    if s != "" {
      CountHolds(s[..|s| - 1], c);
      assert s == s[..|s| - 1] + [s[|s| - 1]];
    }
  }

  /** Unescaping removes nothing but quotes. */
  lemma {:induction false} UnescapeKeeps(s: string, z: char)
    requires z != QUOTE
    ensures Count(Unescape(s), z) == Count(s, z)
    decreases |s|
  {
    if |s| >= 2 {
      hide Count;
      if OccursAt(s, [QUOTE, QUOTE], 0) {
        assert s == [QUOTE] + ([QUOTE] + s[2..]);
        CountConcat([QUOTE], [QUOTE] + s[2..], z);
        CountConcat([QUOTE], s[2..], z);
        CountConcat([QUOTE], Unescape(s[2..]), z);
        CountOne(QUOTE, z);
        UnescapeKeeps(s[2..], z);
      } else {
        assert s == [s[0]] + s[1..];
        CountConcat([s[0]], s[1..], z);
        CountConcat([s[0]], Unescape(s[1..]), z);
        UnescapeKeeps(s[1..], z);
      }
    }
  }

  lemma {:induction false} UnescapeShrinks(s: string)
    ensures |Unescape(s)| <= |s|
  {
    if |s| >= 2 {
      UnescapeShrinks(if OccursAt(s, [QUOTE, QUOTE], 0) then s[2..] else s[1..]);
    }
  }
}
