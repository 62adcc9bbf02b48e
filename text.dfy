/** Text primitives the bridge relies on: ASCII digit strings as Python's
    `str.isdigit` and `int()` accept them, decimal rendering as `str(int)`
    produces it, substring search as `in` performs it, and `str.split`. */
module Text {

  predicate IsDigit(c: char) {
    '0' <= c <= '9'
  }

  /** `s.isdigit()`, restricted to ASCII: non-empty and every character a digit. */
  predicate IsDigits(s: string) {
    |s| > 0 && forall i :: 0 <= i < |s| ==> IsDigit(s[i])
  }

  /** The strings on which `int(s)` succeeds in this model: an optional sign
      followed by at least one ASCII digit. */
  predicate IsInt(s: string) {
    IsDigits(s) || (|s| >= 2 && (s[0] == '+' || s[0] == '-') && IsDigits(s[1..]))
  }

  function DigitValue(c: char): (d: nat)
    requires IsDigit(c)
    ensures d < 10
  {
    c as int - '0' as int
  }

  function DigitChar(d: nat): (c: char)
    requires d < 10
    ensures IsDigit(c) && DigitValue(c) == d
  {
    ('0' as int + d) as char
  }

  /** The value of a decimal digit string, most significant digit first. */
  function DigitsValue(s: string): nat
    requires forall i :: 0 <= i < |s| ==> IsDigit(s[i])
  {
    if s == [] then 0 else DigitsValue(s[..|s| - 1]) * 10 + DigitValue(s[|s| - 1])
  }

  /** `int(s)` on a string IsInt accepts. */
  function IntValue(s: string): (n: int)
    requires IsInt(s)
    ensures n < 0 ==> s[0] == '-'
    ensures s[0] == '+' ==> n == DigitsValue(s[1..])
    ensures IsDigits(s) ==> n == DigitsValue(s)
  {
    if IsDigits(s) then DigitsValue(s)
    else if s[0] == '-' then -(DigitsValue(s[1..]) as int)
    else DigitsValue(s[1..])
  }

  /** `str(n)` for a non-negative n: the shortest decimal rendering. */
  function NatToString(n: nat): (s: string)
    ensures IsDigits(s) && DigitsValue(s) == n
    ensures n > 0 ==> s[0] != '0'
  {
    if n < 10 then [DigitChar(n)]
    else
      var p := NatToString(n / 10);
      var s := p + [DigitChar(n % 10)];
      assert s[..|s| - 1] == p;
      s
  }

  /** `str(n)`: a minus sign in front of the magnitude for negative n. */
  function IntToString(n: int): (s: string)
    ensures IsInt(s) && IntValue(s) == n
    ensures n >= 0 <==> IsDigits(s)
  {
    if n >= 0 then NatToString(n)
    else
      var s := "-" + NatToString(-n);
      assert s[1..] == NatToString(-n);
      s
  }

  /** `sub` occurs in `s` starting at index i. */
  predicate OccursAt(s: string, sub: string, i: nat) {
    i + |sub| <= |s| && s[i..i + |sub|] == sub
  }

  /** Python's `sub in s` for strings. */
  function Contains(s: string, sub: string): (r: bool)
    ensures r <==> exists i: nat :: OccursAt(s, sub, i)
    decreases |s|
  {
    if |s| < |sub| then
      assert forall i: nat :: !OccursAt(s, sub, i);
      false
    else if s[..|sub|] == sub then
      assert OccursAt(s, sub, 0);
      true
    else
      var r := Contains(s[1..], sub);
      assert forall i: nat :: OccursAt(s[1..], sub, i) <==> OccursAt(s, sub, i + 1) by {
        forall i: nat ensures OccursAt(s[1..], sub, i) <==> OccursAt(s, sub, i + 1) {
          if i + |sub| <= |s| - 1 {
            assert s[1..][i..i + |sub|] == s[i + 1..i + 1 + |sub|];
          }
        }
      }
      assert !OccursAt(s, sub, 0);
      assert (exists i: nat :: OccursAt(s, sub, i)) ==> exists i: nat :: OccursAt(s[1..], sub, i) by {
        if exists i: nat :: OccursAt(s, sub, i) {
          var i: nat :| OccursAt(s, sub, i);
          assert i > 0;
          assert OccursAt(s[1..], sub, i - 1);
        }
      }
      r
  }

  /** No character of `s` is one of `seps`. */
  predicate NoneIn(s: string, seps: set<char>) {
    forall i :: 0 <= i < |s| ==> s[i] !in seps
  }

  /** How many characters of `s` are in `seps`. */
  function Count(s: string, seps: set<char>): nat {
    if s == [] then 0 else (if s[0] in seps then 1 else 0) + Count(s[1..], seps)
  }

  /** `s.split(sep)` generalised to a set of single-character separators:
      the maximal separator-free pieces, in order, empty ones included. */
  function Split(s: string, seps: set<char>): (r: seq<string>)
    ensures |r| == Count(s, seps) + 1
    ensures forall k :: 0 <= k < |r| ==> NoneIn(r[k], seps)
  {
    if s == [] then [""]
    else
      var rest := Split(s[1..], seps);
      if s[0] in seps then [""] + rest
      else [[s[0]] + rest[0]] + rest[1..]
  }

  /** `sep.join(parts)`. */
  function Join(parts: seq<string>, sep: char): string {
    if parts == [] then ""
    else if |parts| == 1 then parts[0]
    else parts[0] + [sep] + Join(parts[1..], sep)
  }

  lemma {:induction false} CountZero(s: string, seps: set<char>)
    ensures Count(s, seps) == 0 <==> NoneIn(s, seps)
  {
    if s != [] {
      CountZero(s[1..], seps);
      assert NoneIn(s, seps) <==> s[0] !in seps && NoneIn(s[1..], seps) by {
        if s[0] !in seps && NoneIn(s[1..], seps) {
          forall i | 0 <= i < |s| ensures s[i] !in seps {
            if i > 0 { assert s[i] == s[1..][i - 1]; }
          }
        }
      }
    }
  }

  /** A separator-free string is a single field. */
  lemma SplitNoSeparator(s: string, seps: set<char>)
    requires NoneIn(s, seps)
    ensures Split(s, seps) == [s]
  {
    CountZero(s, seps);
    var r := Split(s, seps);
    assert |r| == 1;
    SplitFlatten(s, seps);
    StripNoneIn(s, seps);
    assert Concat(r) == r[0] + Concat([]);
  }

  /** The pieces of `s` glued back without separators are `s` less its separators. */
  function Strip(s: string, seps: set<char>): string {
    if s == [] then "" else (if s[0] in seps then "" else [s[0]]) + Strip(s[1..], seps)
  }

  function Concat(parts: seq<string>): string {
    if parts == [] then "" else parts[0] + Concat(parts[1..])
  }

  lemma {:induction false} SplitFlatten(s: string, seps: set<char>)
    ensures Concat(Split(s, seps)) == Strip(s, seps)
  {
    if s != [] {
      SplitFlatten(s[1..], seps);
      var rest := Split(s[1..], seps);
      if s[0] !in seps {
        var r := [[s[0]] + rest[0]] + rest[1..];
        assert Concat(rest) == rest[0] + Concat(rest[1..]);
        assert r[1..] == rest[1..];
        assert Concat(r) == [s[0]] + rest[0] + Concat(rest[1..]);
      } else {
        assert ([""] + rest)[1..] == rest;
      }
    }
  }

  lemma StripNoneIn(s: string, seps: set<char>)
    requires NoneIn(s, seps)
    ensures Strip(s, seps) == s
  {
  }

  /** Splitting at the first separator: the head field is everything before it. */
  lemma {:induction false} SplitAtFirst(a: string, sep: char, b: string, seps: set<char>)
    requires sep in seps && NoneIn(a, seps)
    ensures Split(a + [sep] + b, seps) == [a] + Split(b, seps)
  {
    var s := a + [sep] + b;
    if a == [] {
      assert s[1..] == b;
    } else {
      assert s[1..] == a[1..] + [sep] + b;
      assert NoneIn(a[1..], seps) by {
        forall i | 0 <= i < |a| - 1 ensures a[1..][i] !in seps { assert a[1..][i] == a[i + 1]; }
      }
      SplitAtFirst(a[1..], sep, b, seps);
      assert a[0] !in seps;
      assert [a[0]] + a[1..] == a;
    }
  }

  /** A separator-free prefix that ends the string or meets a separator is
      the first field. */
  lemma LeadingField(a: string, b: string, seps: set<char>)
    requires NoneIn(a, seps) && (b == [] || b[0] in seps)
    ensures Split(a + b, seps)[0] == a
  {
    if b == [] {
      assert a + b == a;
      SplitNoSeparator(a, seps);
    } else {
      assert a + b == a + [b[0]] + b[1..];
      SplitAtFirst(a, b[0], b[1..], seps);
    }
  }

  /** Every string is its first field followed by either nothing or a
      separator and the text the remaining fields come from. */
  lemma {:induction false} SplitFirst(s: string, seps: set<char>) returns (rest: string)
    ensures s == Split(s, seps)[0] + rest
    ensures rest == [] <==> |Split(s, seps)| == 1
    ensures rest != [] ==> rest[0] in seps && Split(rest[1..], seps) == Split(s, seps)[1..]
  {
    if s == [] {
      rest := [];
    } else if s[0] in seps {
      rest := s;
      assert s == "" + s;
    } else {
      var r := SplitFirst(s[1..], seps);
      rest := r;
      assert s == [s[0]] + s[1..];
    }
  }

  /** Appending a separator opens a new, empty last field. */
  lemma {:induction false} SplitSnocSeparator(s: string, c: char, seps: set<char>)
    requires c in seps
    ensures Split(s + [c], seps) == Split(s, seps) + [""]
  {
    var t := s + [c];
    if s == [] {
      assert t[1..] == [];
    } else {
      assert t[1..] == s[1..] + [c];
      SplitSnocSeparator(s[1..], c, seps);
      var rest := Split(s[1..], seps);
      if s[0] !in seps {
        assert ([[s[0]] + rest[0]] + rest[1..]) + [""] == [[s[0]] + rest[0]] + (rest + [""])[1..];
      }
    }
  }

  /** Appending any other character extends the last field. */
  lemma {:induction false} SplitSnocOther(s: string, c: char, seps: set<char>)
    requires c !in seps
    ensures var p := Split(s, seps);
            Split(s + [c], seps) == p[..|p| - 1] + [p[|p| - 1] + [c]]
  {
    var t := s + [c];
    if s == [] {
      assert t == [c] && t[1..] == [];
      assert Split(t[1..], seps) == [""];
      assert Split(t, seps) == [[c] + ""] + [""][1..];
      assert Split(s, seps) == [""];
      assert [c] + "" == "" + [c] == [c];
    } else {
      assert t[1..] == s[1..] + [c];
      SplitSnocOther(s[1..], c, seps);
      SplitSnocOtherCons(s, c, seps);
    }
  }

  /** The step of SplitSnocOther: from the tail's split to the whole one. */
  lemma SplitSnocOtherCons(s: string, c: char, seps: set<char>)
    requires s != [] && c !in seps
    requires var p := Split(s[1..], seps);
             Split(s[1..] + [c], seps) == p[..|p| - 1] + [p[|p| - 1] + [c]]
    ensures var p := Split(s, seps);
            Split(s + [c], seps) == p[..|p| - 1] + [p[|p| - 1] + [c]]
  {
    var t := s + [c];
    assert t[1..] == s[1..] + [c] && t[0] == s[0];
    var rest := Split(s[1..], seps);
    if s[0] in seps {
      SplitSnocOtherAfterSeparator(s, c, seps, rest, Split(s[1..] + [c], seps));
    } else {
      SplitSnocOtherInField(s, c, seps, rest, Split(s[1..] + [c], seps));
    }
  }

  lemma SplitSnocOtherAfterSeparator(s: string, c: char, seps: set<char>, rest: seq<string>, rest': seq<string>)
    requires s != [] && s[0] in seps && |rest| >= 1
    requires Split(s, seps) == [""] + rest && Split(s + [c], seps) == [""] + rest'
    requires rest' == rest[..|rest| - 1] + [rest[|rest| - 1] + [c]]
    ensures var p := Split(s, seps);
            Split(s + [c], seps) == p[..|p| - 1] + [p[|p| - 1] + [c]]
  {
    var p := [""] + rest;
    assert p[..|p| - 1] == [""] + rest[..|rest| - 1];
  }

  lemma SplitSnocOtherInField(s: string, c: char, seps: set<char>, rest: seq<string>, rest': seq<string>)
    requires s != [] && s[0] !in seps && |rest| >= 1
    requires Split(s, seps) == [[s[0]] + rest[0]] + rest[1..]
    requires rest' == rest[..|rest| - 1] + [rest[|rest| - 1] + [c]]
    requires Split(s + [c], seps) == [[s[0]] + rest'[0]] + rest'[1..]
    ensures var p := Split(s, seps);
            Split(s + [c], seps) == p[..|p| - 1] + [p[|p| - 1] + [c]]
  {
    var n := |rest|;
    var p := [[s[0]] + rest[0]] + rest[1..];
    if n == 1 {
      assert rest' == [rest[0] + [c]];
      assert [s[0]] + (rest[0] + [c]) == ([s[0]] + rest[0]) + [c];
    } else {
      assert rest'[0] == rest[0];
      assert rest'[1..] == rest[1..n - 1] + [rest[n - 1] + [c]];
      assert p[..|p| - 1] == [[s[0]] + rest[0]] + rest[1..n - 1];
    }
  }

  /** Joining the pieces with a single separator restores the string. */
  lemma {:induction false} JoinSplit(s: string, sep: char)
    ensures Join(Split(s, {sep}), sep) == s
  {
    if s != [] {
      JoinSplit(s[1..], sep);
      var rest := Split(s[1..], {sep});
      if s[0] == sep {
        assert ([""] + rest)[1..] == rest;
        assert s == [sep] + s[1..];
      } else {
        var r := [[s[0]] + rest[0]] + rest[1..];
        if |rest| == 1 {
          assert Join(rest, sep) == rest[0];
        } else {
          assert Join(rest, sep) == rest[0] + [sep] + Join(rest[1..], sep);
          assert r[1..] == rest[1..];
        }
        assert s == [s[0]] + s[1..];
      }
    }
  }

  /** Splitting a join of separator-free pieces gives the pieces back. */
  lemma {:induction false} SplitJoin(parts: seq<string>, sep: char)
    requires |parts| > 0
    requires forall k :: 0 <= k < |parts| ==> NoneIn(parts[k], {sep})
    ensures Split(Join(parts, sep), {sep}) == parts
  {
    if |parts| == 1 {
      SplitNoSeparator(parts[0], {sep});
    } else {
      SplitJoin(parts[1..], sep);
      SplitAtFirst(parts[0], sep, Join(parts[1..], sep), {sep});
      assert [parts[0]] + parts[1..] == parts;
    }
  }
}
