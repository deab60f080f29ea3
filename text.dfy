/** The three Python string builtins the tag parser relies on, restricted to ASCII:
    `str.split(sep)` with a one-character separator, `str.strip()` with no argument
    and `str.lower()`. */
module Text {

  /** The ASCII characters for which Python's `str.isspace()` holds: space, the
      control characters TAB, LF, VT, FF, CR, and the separators FS, GS, RS, US. */
  predicate IsSpace(c: char) {
    c == ' ' || ('\U{0009}' <= c <= '\U{000D}') || ('\U{001C}' <= c <= '\U{001F}')
  }

  predicate IsUpper(c: char) {
    'A' <= c <= 'Z'
  }

  /** Every character of `s` is whitespace. */
  predicate AllSpace(s: string) {
    forall i :: 0 <= i < |s| ==> IsSpace(s[i])
  }

  /** `s` has neither leading nor trailing whitespace. */
  predicate IsStripped(s: string) {
    s == [] || (!IsSpace(s[0]) && !IsSpace(s[|s| - 1]))
  }

  /** `s` holds no upper-case ASCII letter. */
  predicate IsLower(s: string) {
    forall i :: 0 <= i < |s| ==> !IsUpper(s[i])
  }

  /** ASCII lower-casing of one character; every other character is kept. */
  function LowerChar(c: char): (d: char)
    ensures IsUpper(c) ==> d as int == c as int + 32
    ensures !IsUpper(d)
    ensures IsSpace(d) <==> IsSpace(c)
    ensures d == ',' <==> c == ','
    ensures !IsUpper(c) ==> d == c
  {
    if IsUpper(c) then (c as int + 32) as char else c
  }

  /** Python's `s.lower()` on ASCII. */
  function Lower(s: string): (r: string)
    ensures |r| == |s|
    ensures forall i :: 0 <= i < |s| ==> r[i] == LowerChar(s[i])
    ensures IsLower(r)
    ensures forall i :: 0 <= i < |s| ==> (IsSpace(r[i]) <==> IsSpace(s[i]))
    ensures forall i :: 0 <= i < |s| ==> (r[i] == ',' <==> s[i] == ',')
    ensures IsLower(s) ==> r == s
  {
    seq(|s|, i requires 0 <= i < |s| => LowerChar(s[i]))
  }

  /** The number of whitespace characters `s` starts with. */
  function LeadingSpace(s: string): (n: nat)
    ensures n <= |s|
    ensures forall i :: 0 <= i < n ==> IsSpace(s[i])
    ensures n < |s| ==> !IsSpace(s[n])
  {
    if s == [] || !IsSpace(s[0]) then 0 else 1 + LeadingSpace(s[1..])
  }
  /** The number of whitespace characters `s` ends with. */
  function TrailingSpace(s: string): (n: nat)
    ensures n <= |s|
    ensures forall i :: |s| - n <= i < |s| ==> IsSpace(s[i])
    ensures n < |s| ==> !IsSpace(s[|s| - 1 - n])
  {
    if s == [] || !IsSpace(s[|s| - 1]) then 0 else 1 + TrailingSpace(s[..|s| - 1])
  }
  /** `r` is the piece of `s` at `start`, and everything of `s` around it is whitespace. */
  ghost predicate StrippedAt(s: string, r: string, start: nat) {
    && start + |r| <= |s|
    && s[start..start + |r|] == r
    && (forall i :: 0 <= i < start ==> IsSpace(s[i]))
    && (forall i :: start + |r| <= i < |s| ==> IsSpace(s[i]))
  }
  /** Python's `s.strip()` on ASCII: the part of `s` left after cutting whitespace
      from both ends. */
  function Strip(s: string): (r: string)
    ensures IsStripped(r)
    ensures r == [] <==> AllSpace(s)
    ensures StrippedAt(s, r, LeadingSpace(s))
  {
    var a := LeadingSpace(s);
    if a == |s| then [] else s[a..|s| - TrailingSpace(s)]
  }

  /** Stripping keeps out every character the text does not hold. */
  lemma StripKeepsOut(s: string, c: char)
    requires c !in s
    ensures c !in Strip(s)
  {
    var t := Strip(s);
    var a := LeadingSpace(s);
    forall i | 0 <= i < |t| ensures t[i] != c {
      assert t[i] == s[a..a + |t|][i] == s[a + i];
    }
  }

  /** Lower-casing commutes with concatenation. */
  lemma {:induction false} LowerAppend(a: string, b: string)
    ensures Lower(a + b) == Lower(a) + Lower(b)
  {
    var l, r := Lower(a + b), Lower(a) + Lower(b);
    forall i | 0 <= i < |a + b| ensures l[i] == r[i] {
      if i < |a| {
        assert (a + b)[i] == a[i];
      } else {
        assert (a + b)[i] == b[i - |a|];
      }
    }
  }

  /** The whitespace at the front stops at the first other character. */
  lemma LeadingSpaceAtMost(s: string, k: nat)
    requires k < |s| && !IsSpace(s[k])
    ensures LeadingSpace(s) <= k
  {
  }

  /** The whitespace at the end stops at the last other character. */
  lemma TrailingSpaceAtMost(s: string, k: nat)
    requires k < |s| && !IsSpace(s[|s| - 1 - k])
    ensures TrailingSpace(s) <= k
  {
  }

  /** Texts with whitespace at the same positions start with the same amount of it. */
  lemma {:induction false} LeadingSpaceSame(s: string, t: string)
    requires |s| == |t|
    requires forall i :: 0 <= i < |s| ==> (IsSpace(s[i]) <==> IsSpace(t[i]))
    ensures LeadingSpace(s) == LeadingSpace(t)
  {
    var a, b := LeadingSpace(s), LeadingSpace(t);
    if a < |s| {
      assert !IsSpace(t[a]);
      LeadingSpaceAtMost(t, a);
    }
    if b < |s| {
      assert !IsSpace(s[b]);
      LeadingSpaceAtMost(s, b);
    }
  }

  /** Texts with whitespace at the same positions end with the same amount of it. */
  lemma {:induction false} TrailingSpaceSame(s: string, t: string)
    requires |s| == |t|
    requires forall i :: 0 <= i < |s| ==> (IsSpace(s[i]) <==> IsSpace(t[i]))
    ensures TrailingSpace(s) == TrailingSpace(t)
  {
    var a, b := TrailingSpace(s), TrailingSpace(t);
    if a < |s| {
      assert !IsSpace(t[|s| - 1 - a]);
      TrailingSpaceAtMost(t, a);
    }
    if b < |s| {
      assert !IsSpace(s[|s| - 1 - b]);
      TrailingSpaceAtMost(s, b);
    }
  }

  /** Stripping and lower-casing can be done in either order. */
  lemma {:induction false} StripLower(s: string)
    ensures Strip(Lower(s)) == Lower(Strip(s))
  {
    StripSame(s, Lower(s));
    LowerStrip(s);
  }

  /** Lower-casing the stripped text is cutting the same piece out of the lower-cased text. */
  lemma {:induction false} LowerStrip(s: string)
    ensures LeadingSpace(s) + |Strip(s)| <= |s|
    ensures Lower(Strip(s)) == Lower(s)[LeadingSpace(s)..LeadingSpace(s) + |Strip(s)|]
  {
    StripAt(s);
    LowerSlice(s, LeadingSpace(s), LeadingSpace(s) + |Strip(s)|, Strip(s));
  }

  /** Where the stripped text sits in the input. */
  lemma StripAt(s: string)
    ensures LeadingSpace(s) + |Strip(s)| <= |s|
    ensures s[LeadingSpace(s)..LeadingSpace(s) + |Strip(s)|] == Strip(s)
  {
  }

  /** Texts with whitespace at the same positions are stripped at the same positions. */
  lemma {:induction false} StripSame(s: string, t: string)
    requires |s| == |t|
    requires forall i :: 0 <= i < |s| ==> (IsSpace(s[i]) <==> IsSpace(t[i]))
    ensures LeadingSpace(s) + |Strip(s)| <= |t|
    ensures t[LeadingSpace(s)..LeadingSpace(s) + |Strip(s)|] == Strip(t)
  {
    StripAt(t);
    LeadingSpaceSame(s, t);
    TrailingSpaceSame(s, t);
    StripLength(s);
    StripLength(t);
    assert |Strip(s)| == |Strip(t)|;
  }

  /** How long the stripped text is: all of it but the whitespace at both ends. */
  lemma StripLength(s: string)
    ensures |Strip(s)| == if LeadingSpace(s) == |s| then 0 else |s| - LeadingSpace(s) - TrailingSpace(s)
  {
  }

  /** Lower-casing a slice is slicing the lower-cased text. */
  lemma {:induction false} LowerSlice(s: string, a: nat, e: nat, t: string)
    requires a <= e <= |s| && s[a..e] == t
    ensures Lower(t) == Lower(s)[a..e]
  {
    var l := Lower(s);
    forall i | 0 <= i < e - a ensures Lower(t)[i] == l[a..e][i] {
      assert Lower(t)[i] == LowerChar(t[i]);
      assert t[i] == s[a + i];
      assert l[a + i] == LowerChar(s[a + i]);
    }
  }

  /** The lower-cased form of every field, in order. */
  function MapLower(fields: seq<string>): seq<string> {
    seq(|fields|, i requires 0 <= i < |fields| => Lower(fields[i]))
  }

  /** Lower-casing a join lower-cases each part, for a separator that is not a letter
      case could change. */
  lemma {:induction false} LowerJoin(parts: seq<string>, sep: char)
    requires !IsUpper(sep)
    ensures Lower(Join(parts, sep)) == Join(MapLower(parts), sep)
  {
    var lp := MapLower(parts);
    if |parts| == 1 {
      assert lp == [Lower(parts[0])];
    } else if |parts| > 1 {
      var rest := parts[1..];
      assert lp[1..] == MapLower(rest);
      LowerJoin(rest, sep);
      LowerAppend(parts[0] + [sep], Join(rest, sep));
      LowerAppend(parts[0], [sep]);
      assert Lower([sep]) == [sep];
    }
  }

  /** Splitting the lower-cased text at commas gives the lower-cased fields. */
  lemma {:induction false} SplitLower(s: string)
    ensures Split(Lower(s), ',') == MapLower(Split(s, ','))
  {
    var fields := Split(s, ',');
    JoinSplit(s, ',');
    SplitFields(s, ',');
    LowerJoin(fields, ',');
    var lf := MapLower(fields);
    forall i | 0 <= i < |lf| ensures ',' !in lf[i] {
      assert ',' !in fields[i];
      assert forall j :: 0 <= j < |lf[i]| ==> (lf[i][j] == ',' <==> fields[i][j] == ',');
    }
    SplitJoin(lf, ',');
  }

  /** Python's `s.join(parts)` for a one-character separator. */
  function Join(parts: seq<string>, sep: char): string {
    if parts == [] then []
    else if |parts| == 1 then parts[0]
    else parts[0] + [sep] + Join(parts[1..], sep)
  }

  /** Python's `s.split(sep)` for a one-character separator: the fields between
      separators, in order, including empty ones; `"".split(sep)` is `[""]`. */
  function Split(s: string, sep: char): (r: seq<string>)
    ensures |r| >= 1
  {
    if s == [] then [""]
    else
      var rest := Split(s[1..], sep);
      if s[0] == sep then [""] + rest
      else [[s[0]] + rest[0]] + rest[1..]
  }

  /** There is one field more than there are separators, and no field holds one. */
  lemma SplitFields(s: string, sep: char)
    ensures |Split(s, sep)| == multiset(s)[sep] + 1
    ensures forall i :: 0 <= i < |Split(s, sep)| ==> sep !in Split(s, sep)[i]
  {
    SplitCount(s, sep);
    SplitSepFree(s, sep);
  }

  lemma {:induction false} SplitCount(s: string, sep: char)
    ensures |Split(s, sep)| == multiset(s)[sep] + 1
  {
    if s != [] {
      assert s == [s[0]] + s[1..];
      assert multiset(s) == multiset([s[0]]) + multiset(s[1..]);
      SplitCount(s[1..], sep);
    }
  }

  lemma {:induction false} SplitSepFree(s: string, sep: char)
    ensures forall i :: 0 <= i < |Split(s, sep)| ==> sep !in Split(s, sep)[i]
  {
    if s != [] {
      SplitSepFree(s[1..], sep);
      var rest := Split(s[1..], sep);
      if s[0] != sep {
        SplitAtChar(s, rest, [], sep);
        assert rest + [] == rest;
        var r := Split(s, sep);
        forall i | 0 <= i < |r| ensures sep !in r[i] {
          if i == 0 {
            assert r[0] == [s[0]] + rest[0];
          } else {
            assert r[i] == rest[i];
          }
        }
      }
    }
  }

  /** Splitting and re-joining gives the input back. */
  lemma {:induction false} JoinSplit(s: string, sep: char)
    ensures Join(Split(s, sep), sep) == s
  {
    if s != [] {
      var rest := Split(s[1..], sep);
      JoinSplit(s[1..], sep);
      if s[0] == sep {
        assert Split(s, sep) == [""] + rest;
        assert ([""] + rest)[1..] == rest;
      } else {
        var r := Split(s, sep);
        assert r == [[s[0]] + rest[0]] + rest[1..];
        if |rest| == 1 {
          assert r == [[s[0]] + rest[0]];
        } else {
          assert r[1..] == rest[1..];
          assert Join(rest, sep) == rest[0] + [sep] + Join(rest[1..], sep);
        }
      }
    }
  }

  /** Joining separator-free fields and splitting again gives the fields back. */
  lemma {:induction false} SplitJoin(parts: seq<string>, sep: char)
    requires parts != []
    requires forall i :: 0 <= i < |parts| ==> sep !in parts[i]
    ensures Split(Join(parts, sep), sep) == parts
  {
    if |parts| == 1 {
      SplitField(parts[0], sep);
    } else {
      SplitJoin(parts[1..], sep);
      SplitAppend(parts[0], Join(parts[1..], sep), sep);
      SplitField(parts[0], sep);
      assert [parts[0]] + parts[1..] == parts;
    }
  }

  /** A string without a separator is one field. */
  lemma {:induction false} SplitField(s: string, sep: char)
    requires sep !in s
    ensures Split(s, sep) == [s]
  {
    if s != [] {
      assert s[1..] == s[|s| - (|s| - 1)..];
      assert sep !in s[1..] by {
        forall i | 0 <= i < |s| - 1 ensures s[1..][i] != sep {
          assert s[1..][i] == s[i + 1];
        }
      }
      SplitField(s[1..], sep);
      assert [s[0]] + s[1..] == s;
    }
  }

  /** Splitting `a + sep + b` splits `a` and `b` separately: the field lists are
      glued, the last field of `a` is not merged with the first field of `b`. */
  lemma {:induction false} SplitAppend(a: string, b: string, sep: char)
    ensures Split(a + [sep] + b, sep) == Split(a, sep) + Split(b, sep)
  {
    var s := a + [sep] + b;
    if a == [] {
      assert s == [sep] + b;
      assert s[1..] == b;
      SplitAtSep(s, Split(b, sep), sep);
    } else {
      assert s[1..] == a[1..] + [sep] + b;
      SplitAppend(a[1..], b, sep);
      var ra := Split(a[1..], sep);
      var rb := Split(b, sep);
      if a[0] != sep {
        SplitAtChar(s, ra, rb, sep);
        SplitAtChar(a, ra, [], sep);
        assert ra + [] == ra && ra[1..] + [] == ra[1..];
      } else {
        SplitAtSep(s, ra + rb, sep);
        SplitAtSep(a, ra, sep);
      }
    }
  }

  /** One unfolding of Split when `s` starts with an ordinary character. */
  lemma SplitAtChar(s: string, ra: seq<string>, rb: seq<string>, sep: char)
    requires s != [] && s[0] != sep
    requires Split(s[1..], sep) == ra + rb && |ra| >= 1
    ensures Split(s, sep) == [[s[0]] + ra[0]] + (ra[1..] + rb)
  {
    assert (ra + rb)[0] == ra[0];
    assert (ra + rb)[1..] == ra[1..] + rb;
  }

  /** One unfolding of Split when `s` starts with the separator. */
  lemma SplitAtSep(s: string, rest: seq<string>, sep: char)
    requires s != [] && s[0] == sep
    requires Split(s[1..], sep) == rest
    ensures Split(s, sep) == [""] + rest
  {
  }
}
