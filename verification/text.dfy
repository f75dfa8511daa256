/**
 * The pieces of Python's string handling that the validators rely on:
 * str.isspace, lower/upper, strip, rstrip of one character, replace of one
 * character, split() on whitespace, split(c) on one character, join, and the
 * order-keeping de-duplication of OrderedDict.fromkeys.
 */
module Text {
  import opened Seqs

  /** Python's str.isspace on one character. */
  predicate IsSpace(c: char) {
    || c == ' '
    || ('\t' <= c <= '\r')
    || ('\U{1C}' <= c <= '\U{1F}')
    || c == '\U{85}' || c == '\U{A0}' || c == '\U{1680}'
    || ('\U{2000}' <= c <= '\U{200A}')
    || c == '\U{2028}' || c == '\U{2029}' || c == '\U{202F}' || c == '\U{205F}' || c == '\U{3000}'
  }

  /** A word as str.split() returns it: non-empty, without whitespace. */
  predicate IsWord(w: string) {
    w != [] && forall c :: c in w ==> !IsSpace(c)
  }

  function LowerChar(c: char): char {
    if 'A' <= c <= 'Z' then (c as int + 32) as char else c
  }

  function UpperChar(c: char): char {
    if 'a' <= c <= 'z' then (c as int - 32) as char else c
  }

  /** str.lower() on the ASCII letters. */
  function Lower(s: string): (r: string)
    ensures |r| == |s|
    ensures forall i :: 0 <= i < |s| ==> r[i] == LowerChar(s[i])
    ensures forall i :: 0 <= i < |r| ==> !('A' <= r[i] <= 'Z')
  {
    seq(|s|, i requires 0 <= i < |s| => LowerChar(s[i]))
  }

  /** str.upper() on the ASCII letters. */
  function Upper(s: string): (r: string)
    ensures |r| == |s|
    ensures forall i :: 0 <= i < |s| ==> r[i] == UpperChar(s[i])
    ensures forall i :: 0 <= i < |r| ==> !('a' <= r[i] <= 'z')
  {
    seq(|s|, i requires 0 <= i < |s| => UpperChar(s[i]))
  }

  /** str.replace(from, to) for single characters. */
  function Replace(s: string, from: char, to: char): (r: string)
    ensures |r| == |s|
    ensures forall i :: 0 <= i < |s| ==> r[i] == if s[i] == from then to else s[i]
    ensures from != to ==> from !in r
  {
    seq(|s|, i requires 0 <= i < |s| => if s[i] == from then to else s[i])
  }

  /** str.lstrip(): drops the leading whitespace. */
  function LStrip(s: string): (r: string)
    ensures |r| <= |s| && r == s[|s| - |r|..]
    ensures forall i :: 0 <= i < |s| - |r| ==> IsSpace(s[i])
    ensures r == [] || !IsSpace(r[0])
  {
    if s != [] && IsSpace(s[0]) then LStrip(s[1..]) else s
  }

  /** str.rstrip(): drops the trailing whitespace. */
  function RStrip(s: string): (r: string)
    ensures |r| <= |s| && r == s[..|r|]
    ensures forall i :: |r| <= i < |s| ==> IsSpace(s[i])
    ensures r == [] || !IsSpace(r[|r| - 1])
  {
    if s != [] && IsSpace(s[|s| - 1]) then RStrip(s[..|s| - 1]) else s
  }

  /** str.strip(): the input without its leading and trailing whitespace. */
  function Strip(s: string): (r: string)
    ensures r == [] || (!IsSpace(r[0]) && !IsSpace(r[|r| - 1]))
    ensures |r| <= |s| && forall c :: c in r ==> c in s
  {
    var l := LStrip(s);
    var r := RStrip(l);
    assert forall c :: c in r ==> c in l;
    r
  }

  /**
   * Stripping drops whitespace only, and only at the ends: the result is the
   * slice of the input that starts after the leading whitespace.
   */
  lemma StripSlice(s: string)
    ensures var k := |s| - |LStrip(s)|;
      && k + |Strip(s)| <= |s| && Strip(s) == s[k..k + |Strip(s)|]
      && (forall i :: 0 <= i < k ==> IsSpace(s[i]))
      && (forall i :: k + |Strip(s)| <= i < |s| ==> IsSpace(s[i]))
  {
    var l := LStrip(s);
    var r := RStrip(l);
    assert Strip(s) == r;
    PrefixOfSuffix(s, l, r);
  }

  /** A prefix r of a suffix l of s is the slice of s that starts where l does. */
  lemma PrefixOfSuffix(s: string, l: string, r: string)
    requires |l| <= |s| && l == s[|s| - |l|..]
    requires |r| <= |l| && r == l[..|r|]
    requires forall i :: |r| <= i < |l| ==> IsSpace(l[i])
    ensures var k := |s| - |l|;
      && r == s[k..k + |r|]
      && forall i :: k + |r| <= i < |s| ==> IsSpace(s[i])
  {
    var k := |s| - |l|;
    forall i | k + |r| <= i < |s| ensures IsSpace(s[i]) {
      assert s[i] == l[i - k];
    }
  }

  /** Stripping leaves a string that neither starts nor ends with whitespace as it is. */
  lemma StripNoOp(s: string)
    requires s == [] || (!IsSpace(s[0]) && !IsSpace(s[|s| - 1]))
    ensures Strip(s) == s
  {
  }

  /** Stripping twice is stripping once. */
  lemma StripIdempotent(s: string)
    ensures Strip(Strip(s)) == Strip(s)
  {
    StripNoOp(Strip(s));
  }

  /** str.rstrip(c) for one character c. */
  function RStripChar(s: string, c: char): (r: string)
    ensures |r| <= |s| && r == s[..|r|]
    ensures forall i :: |r| <= i < |s| ==> s[i] == c
    ensures r == [] || r[|r| - 1] != c
  {
    if s != [] && s[|s| - 1] == c then RStripChar(s[..|s| - 1], c) else s
  }

  /** The length of the run of non-space characters that starts s. */
  function WordLen(s: string): (n: nat)
    ensures n <= |s|
    ensures forall i :: 0 <= i < n ==> !IsSpace(s[i])
    ensures n < |s| ==> IsSpace(s[n])
  {
    if s == [] || IsSpace(s[0]) then 0 else 1 + WordLen(s[1..])
  }

  /** str.split() with no separator: the maximal runs of non-space characters of s, in order. */
  function Words(s: string): (ws: seq<string>)
    ensures forall w :: w in ws ==> IsWord(w)
    ensures forall w, c :: w in ws && c in w ==> c in s
    decreases |s|
  {
    if s == [] then []
    else if IsSpace(s[0]) then Words(s[1..])
    else
      var n := WordLen(s);
      assert forall c :: c in s[..n] ==> c in s;
      [s[..n]] + Words(s[n..])
  }

  /** sep.join(ws). */
  function Join(ws: seq<string>, sep: string): string {
    if |ws| == 0 then []
    else if |ws| == 1 then ws[0]
    else ws[0] + sep + Join(ws[1..], sep)
  }

  /** Leading whitespace never changes the words of a string. */
  lemma {:induction false} WordsAfterSpaces(sp: string, t: string)
    requires forall c :: c in sp ==> IsSpace(c)
    ensures Words(sp + t) == Words(t)
    decreases |sp|
  {
    if sp == [] {
      assert sp + t == t;
    } else {
      assert sp[0] in sp;
      assert (sp + t)[0] == sp[0] && IsSpace(sp[0]);
      var whole := sp + t;
      assert whole[1..] == sp[1..] + t;
      assert forall c :: c in sp[1..] ==> c in sp;
      WordsAfterSpaces(sp[1..], t);
      assert whole != [] && IsSpace(whole[0]);
      assert Words(whole) == Words(whole[1..]);
      assert Words(whole[1..]) == Words(t);
    }
  }

  /** A word followed by nothing or by whitespace is read back whole. */
  lemma {:induction false} WordLenOfWord(w: string, t: string)
    requires IsWord(w)
    requires t == [] || IsSpace(t[0])
    ensures WordLen(w + t) == |w|
    decreases |w|
  {
    assert (w + t)[1..] == w[1..] + t;
    if |w| > 1 {
      WordLenOfWord(w[1..], t);
    } else {
      assert w[1..] + t == t;
    }
  }

  /** Splitting a join of words on whitespace gives the words back, when the separator is whitespace. */
  lemma {:induction false} WordsOfJoin(ws: seq<string>, sep: string)
    requires forall w :: w in ws ==> IsWord(w)
    requires sep != [] && forall c :: c in sep ==> IsSpace(c)
    ensures Words(Join(ws, sep)) == ws
    decreases |ws|
  {
    if |ws| == 1 {
      WordLenOfWord(ws[0], []);
      assert ws[0] + [] == ws[0];
    } else if |ws| > 1 {
      var rest := sep + Join(ws[1..], sep);
      assert Join(ws, sep) == ws[0] + rest;
      WordLenOfWord(ws[0], rest);
      var s := ws[0] + rest;
      assert s[..|ws[0]|] == ws[0];
      assert s[|ws[0]|..] == rest;
      WordsAfterSpaces(sep, Join(ws[1..], sep));
      WordsOfJoin(ws[1..], sep);
    }
  }

  /** A join of words, separated by a string that starts and ends with non-space, neither starts nor ends with whitespace. */
  lemma {:induction false} JoinEnds(ws: seq<string>, sep: string)
    requires forall w :: w in ws ==> IsWord(w)
    ensures var j := Join(ws, sep); j == [] || (!IsSpace(j[0]) && !IsSpace(j[|j| - 1]))
    decreases |ws|
  {
    if |ws| > 1 {
      JoinEnds(ws[1..], sep);
      var j := Join(ws[1..], sep);
      assert ws[0] in ws && ws[1] in ws;
      assert ws[1..][0] == ws[1];
      assert j != [] by {
        if |ws[1..]| == 1 {
          assert j == ws[1];
        } else {
          assert j == ws[1] + sep + Join(ws[1..][1..], sep);
        }
      }
      var whole := ws[0] + sep + j;
      assert Join(ws, sep) == whole;
      assert whole[0] == ws[0][0];
      assert whole[|whole| - 1] == j[|j| - 1];
    } else if |ws| == 1 {
      assert ws[0] in ws;
    }
  }

  /** Replace, Upper and every other character-wise map commute with concatenation. */
  lemma ReplaceAppend(a: string, b: string, from: char, to: char)
    ensures Replace(a + b, from, to) == Replace(a, from, to) + Replace(b, from, to)
  {
  }

  lemma UpperAppend(a: string, b: string)
    ensures Upper(a + b) == Upper(a) + Upper(b)
  {
  }

  /** Replacing a character no word contains turns a join on sep into a join on sep with that character replaced. */
  lemma {:induction false} ReplaceInJoin(ws: seq<string>, sep: string, from: char, to: char)
    requires forall w :: w in ws ==> from !in w
    ensures Replace(Join(ws, sep), from, to) == Join(ws, Replace(sep, from, to))
    decreases |ws|
  {
    if |ws| == 1 {
      assert ws[0] in ws;
      assert Replace(ws[0], from, to) == ws[0];
    } else if |ws| > 1 {
      assert ws[0] in ws;
      assert Replace(ws[0], from, to) == ws[0];
      ReplaceAppend(ws[0] + sep, Join(ws[1..], sep), from, to);
      ReplaceAppend(ws[0], sep, from, to);
      ReplaceInJoin(ws[1..], sep, from, to);
    }
  }

  /** Upper-casing a join of upper-case words on a separator without letters changes nothing. */
  lemma {:induction false} UpperOfJoin(ws: seq<string>, sep: string)
    requires forall w :: w in ws ==> Upper(w) == w
    requires Upper(sep) == sep
    ensures Upper(Join(ws, sep)) == Join(ws, sep)
    decreases |ws|
  {
    if |ws| == 1 {
      assert ws[0] in ws;
    } else if |ws| > 1 {
      assert ws[0] in ws;
      UpperAppend(ws[0] + sep, Join(ws[1..], sep));
      UpperAppend(ws[0], sep);
      UpperOfJoin(ws[1..], sep);
    }
  }

  /** A string without lower-case letters is its own upper-case form. */
  lemma UpperFixed(w: string)
    requires forall c :: c in w ==> UpperChar(c) == c
    ensures Upper(w) == w
  {
    assert forall i :: 0 <= i < |w| ==> w[i] in w;
  }

  /** Lower-casing twice is lower-casing once, and lower-casing makes no character that is not a lower-case letter. */
  lemma LowerFacts(s: string)
    ensures Lower(Lower(s)) == Lower(s)
    ensures forall c :: c in Lower(s) && !('a' <= c <= 'z') ==> c in s
  {
    forall c | c in Lower(s) && !('a' <= c <= 'z') ensures c in s {
      var i :| 0 <= i < |s| && Lower(s)[i] == c;
      assert s[i] == c;
    }
  }

  /** Each string of ws lower-cased. */
  function LowerAll(ws: seq<string>): (r: seq<string>)
    ensures |r| == |ws| && forall i :: 0 <= i < |ws| ==> r[i] == Lower(ws[i])
  {
    seq(|ws|, i requires 0 <= i < |ws| => Lower(ws[i]))
  }

  /** Lower-casing a join on a separator without capitals is joining the lower-cased pieces. */
  lemma {:induction false} LowerOfJoin(ws: seq<string>, sep: string)
    requires Lower(sep) == sep
    ensures Lower(Join(ws, sep)) == Join(LowerAll(ws), sep)
    decreases |ws|
  {
    if |ws| > 1 {
      assert Lower(ws[0] + sep + Join(ws[1..], sep)) == Lower(ws[0]) + sep + Lower(Join(ws[1..], sep));
      LowerOfJoin(ws[1..], sep);
      assert LowerAll(ws)[1..] == LowerAll(ws[1..]);
    }
  }

  /** No element occurs twice. */
  predicate NoDup<T(==)>(s: seq<T>) {
    DistinctBy(s, (x: T) => x)
  }

  /** The position of the first occurrence of x in s. */
  function FirstIndex<T(==)>(s: seq<T>, x: T): (k: nat)
    requires x in s
    ensures k < |s| && s[k] == x && x !in s[..k]
  {
    if s[0] == x then 0 else 1 + FirstIndex(s[1..], x)
  }

  /** Appending to a sequence leaves the first occurrence of what it already held where it was. */
  lemma FirstIndexPrefix<T>(s: seq<T>, x: T)
    requires |s| > 0 && x in s[..|s| - 1]
    ensures FirstIndex(s, x) == FirstIndex(s[..|s| - 1], x)
  {
    var p := s[..|s| - 1];
    var k := FirstIndex(p, x);
    var m := FirstIndex(s, x);
    assert s[k] == x;
    assert p[..k] == s[..k];
  }

  /**
   * list(OrderedDict.fromkeys(s)): s without repeats, each element kept at
   * its first occurrence, in the order of those first occurrences.
   */
  function Dedup(s: seq<string>): (r: seq<string>)
    ensures NoDup(r)
    ensures forall x :: x in r <==> x in s
    decreases |s|
  {
    if s == [] then []
    else
      var p := s[..|s| - 1];
      var x := s[|s| - 1];
      var r := Dedup(p);
      assert s == p + [x];
      if x in r then r else r + [x]
  }

  /** Dedup keeps the elements in the order of their first occurrences. */
  lemma {:induction false} DedupOrder(s: seq<string>)
    ensures forall i, j :: 0 <= i < j < |Dedup(s)| ==> FirstIndex(s, Dedup(s)[i]) < FirstIndex(s, Dedup(s)[j])
    decreases |s|
  {
    if s != [] {
      var p := s[..|s| - 1];
      var x := s[|s| - 1];
      var r := Dedup(p);
      DedupOrder(p);
      assert s == p + [x];
      forall i | 0 <= i < |r| ensures FirstIndex(s, r[i]) == FirstIndex(p, r[i]) < |p| {
        FirstIndexPrefix(s, r[i]);
      }
      if x in r {
        assert Dedup(s) == r;
        forall i, j | 0 <= i < j < |r| ensures FirstIndex(s, r[i]) < FirstIndex(s, r[j]) {
          assert FirstIndex(p, r[i]) < FirstIndex(p, r[j]);
        }
      } else {
        assert FirstIndex(s, x) == |p| by {
          assert x !in p;
          assert s[|p|] == x;
        }
        var r' := r + [x];
        assert Dedup(s) == r';
        forall i, j | 0 <= i < j < |r'| ensures FirstIndex(s, r'[i]) < FirstIndex(s, r'[j]) {
          if j < |r| {
            assert r'[i] == r[i] && r'[j] == r[j];
            assert FirstIndex(p, r[i]) < FirstIndex(p, r[j]);
          } else {
            assert r'[i] == r[i] && r'[j] == x;
          }
        }
      }
    }
  }

  /** A sequence without repeats is its own de-duplication. */
  lemma {:induction false} DedupOfNoDup(s: seq<string>)
    requires NoDup(s)
    ensures Dedup(s) == s
    decreases |s|
  {
    if s != [] {
      var p := s[..|s| - 1];
      assert NoDup(p);
      DedupOfNoDup(p);
      assert s[|s| - 1] !in p;
      assert p + [s[|s| - 1]] == s;
    }
  }

  /** The number of occurrences of c in s. */
  function Count(s: string, c: char): (n: nat)
    ensures n == 0 <==> c !in s
  {
    if s == [] then 0 else (if s[0] == c then 1 else 0) + Count(s[1..], c)
  }

  lemma {:induction false} CountAppend(a: string, b: string, c: char)
    ensures Count(a + b, c) == Count(a, c) + Count(b, c)
    decreases |a|
  {
    if a == [] {
      assert a + b == b;
    } else {
      assert (a + b)[0] == a[0];
      assert (a + b)[1..] == a[1..] + b;
      CountAppend(a[1..], b, c);
    }
  }

  /** str.split(c) with a one-character separator: the pieces between the occurrences of c. */
  function SplitOn(s: string, c: char): (parts: seq<string>)
    ensures |parts| >= 1
    ensures forall p :: p in parts ==> c !in p
    decreases |s|
  {
    if c !in s then [s]
    else
      var k := FirstIndex(s, c);
      [s[..k]] + SplitOn(s[k + 1..], c)
  }

  /** Splitting on c gives one piece more than there are occurrences of c. */
  lemma {:induction false} SplitOnCount(s: string, c: char)
    ensures |SplitOn(s, c)| == Count(s, c) + 1
    decreases |s|
  {
    if c in s {
      var k := FirstIndex(s, c);
      assert s == s[..k] + ([c] + s[k + 1..]);
      CountAppend(s[..k], [c] + s[k + 1..], c);
      CountAppend([c], s[k + 1..], c);
      SplitOnCount(s[k + 1..], c);
    }
  }

  /** Joining the pieces of a split on c with c gives back the string split. */
  lemma {:induction false} JoinSplitOn(s: string, c: char)
    ensures Join(SplitOn(s, c), [c]) == s
    decreases |s|
  {
    if c in s {
      var k := FirstIndex(s, c);
      var rest := SplitOn(s[k + 1..], c);
      JoinSplitOn(s[k + 1..], c);
      assert SplitOn(s, c)[1..] == rest;
      assert s == s[..k] + [c] + s[k + 1..];
    }
  }
}
