/** The JavaScript string primitives the ingestion code relies on:
    `trim`, `toLowerCase`, `includes` and `split` on a single character. */
module Text {

  /** The code points JavaScript's `String.prototype.trim` removes: the
      WhiteSpace and LineTerminator productions of ECMAScript. */
  predicate IsWhitespace(c: char) {
    var n := c as int;
    n == 0x09 || n == 0x0A || n == 0x0B || n == 0x0C || n == 0x0D || n == 0x20 ||
    n == 0xA0 || n == 0x1680 || (0x2000 <= n <= 0x200A) || n == 0x2028 ||
    n == 0x2029 || n == 0x202F || n == 0x205F || n == 0x3000 || n == 0xFEFF
  }

  /** A string `trim` leaves unchanged. */
  predicate IsTrimmed(s: string) {
    s == [] || (!IsWhitespace(s[0]) && !IsWhitespace(s[|s| - 1]))
  }

  /** Drops leading whitespace: what is kept is a suffix that does not start
      with whitespace. */
  function TrimStart(s: string): (r: string)
    ensures |r| <= |s|
    ensures r == [] || !IsWhitespace(r[0])
  {
    if s != [] && IsWhitespace(s[0]) then TrimStart(s[1..]) else s
  }

  /** Drops trailing whitespace: what is kept is a prefix that does not end
      with whitespace. */
  function TrimEnd(s: string): (r: string)
    ensures |r| <= |s|
    ensures r == [] || (r[0] == s[0] && !IsWhitespace(r[|r| - 1]))
  {
    if s != [] && IsWhitespace(s[|s| - 1]) then TrimEnd(s[..|s| - 1]) else s
  }

  /** `String.prototype.trim`. */
  function Trim(s: string): (r: string)
    ensures IsTrimmed(r)
  {
    var t := TrimStart(s);
    TrimEnd(t)
  }

  /** What `trim` keeps is the slice s[i..j] between a run of leading and a
      run of trailing whitespace. */
  lemma TrimIsSlice(s: string)
    ensures exists i, j :: 0 <= i <= j <= |s| && Trim(s) == s[i..j] &&
              (forall k :: 0 <= k < i ==> IsWhitespace(s[k])) &&
              (forall k :: j <= k < |s| ==> IsWhitespace(s[k]))
  {
    var t := TrimStart(s);
    TrimStartIsSuffix(s);
    TrimEndIsPrefix(t);
    var i := |s| - |t|;
    var j := i + |TrimEnd(t)|;
    assert Trim(s) == s[i..j];
    assert forall k :: j <= k < |s| ==> s[k] == t[k - i];
  }

  /** TrimStart keeps a suffix and drops only whitespace. */
  lemma {:induction false} TrimStartIsSuffix(s: string)
    ensures TrimStart(s) == s[|s| - |TrimStart(s)|..]
    ensures forall k :: 0 <= k < |s| - |TrimStart(s)| ==> IsWhitespace(s[k])
  {
    if s != [] && IsWhitespace(s[0]) {
      TrimStartIsSuffix(s[1..]);
      assert forall k :: 1 <= k < |s| ==> s[k] == s[1..][k - 1];
    }
  }

  /** TrimEnd keeps a prefix and drops only whitespace. */
  lemma {:induction false} TrimEndIsPrefix(s: string)
    ensures TrimEnd(s) == s[..|TrimEnd(s)|]
    ensures forall k :: |TrimEnd(s)| <= k < |s| ==> IsWhitespace(s[k])
  {
    if s != [] && IsWhitespace(s[|s| - 1]) {
      TrimEndIsPrefix(s[..|s| - 1]);
    }
  }

  lemma {:induction false} TrimStartSubmultiset(s: string)
    ensures multiset(TrimStart(s)) <= multiset(s)
  {
    if s != [] && IsWhitespace(s[0]) {
      TrimStartSubmultiset(s[1..]);
      assert s == [s[0]] + s[1..];
    }
  }

  lemma {:induction false} TrimEndSubmultiset(s: string)
    ensures multiset(TrimEnd(s)) <= multiset(s)
  {
    if s != [] && IsWhitespace(s[|s| - 1]) {
      TrimEndSubmultiset(s[..|s| - 1]);
      assert s == s[..|s| - 1] + [s[|s| - 1]];
    }
  }

  /** Trimming only removes characters. */
  lemma TrimSubmultiset(s: string)
    ensures multiset(Trim(s)) <= multiset(s)
  {
    TrimStartSubmultiset(s);
    TrimEndSubmultiset(TrimStart(s));
  }

  lemma {:induction false} TrimOfTrimmed(s: string)
    requires IsTrimmed(s)
    ensures Trim(s) == s
  {
    if s != [] {
      assert !IsWhitespace(s[0]);
      assert TrimStart(s) == s;
      assert !IsWhitespace(s[|s| - 1]);
      assert TrimEnd(s) == s;
    }
  }

  predicate AllWhitespace(s: string) {
    forall k :: 0 <= k < |s| ==> IsWhitespace(s[k])
  }

  /** Leading whitespace is dropped up to the first other character. */
  lemma {:induction false} TrimStartLead(w: string, x: string)
    requires AllWhitespace(w)
    requires x == [] || !IsWhitespace(x[0])
    ensures TrimStart(w + x) == x
  {
    if w == [] {
      assert w + x == x;
    } else {
      assert (w + x)[0] == w[0];
      assert (w + x)[1..] == w[1..] + x;
      TrimStartLead(w[1..], x);
    }
  }

  /** Trailing whitespace is dropped back to the last other character. */
  lemma {:induction false} TrimEndTrail(x: string, w: string)
    requires AllWhitespace(w)
    requires x == [] || !IsWhitespace(x[|x| - 1])
    ensures TrimEnd(x + w) == x
    decreases |w|
  {
    if w == [] {
      assert x + w == x;
    } else {
      var init := w[..|w| - 1];
      assert (x + w)[|x + w| - 1] == w[|w| - 1];
      assert (x + w)[..|x + w| - 1] == x + init;
      TrimEndTrail(x, init);
    }
  }

  /** Trimming text padded with whitespace on both sides gives back the
      text, provided it does not itself start or end with whitespace. */
  lemma TrimPadded(w1: string, x: string, w2: string)
    requires AllWhitespace(w1) && AllWhitespace(w2) && IsTrimmed(x)
    ensures Trim(w1 + x + w2) == x
  {
    assert w1 + x + w2 == w1 + (x + w2);
    if x == [] {
      assert x + w2 == w2;
      TrimStartLead(w1 + w2, []);
      assert w1 + w2 + [] == w1 + w2;
      TrimEndTrail([], []);
      assert TrimStart(w1 + x + w2) == [];
    } else {
      assert (x + w2)[0] == x[0];
      TrimStartLead(w1, x + w2);
      TrimEndTrail(x, w2);
    }
  }

  /** ASCII `toLowerCase` of one character. */
  function LowerChar(c: char): char {
    if 'A' <= c <= 'Z' then (c as int + 32) as char else c
  }

  /** `String.prototype.toLowerCase`, restricted to ASCII letters. */
  function Lower(s: string): (r: string)
    ensures |r| == |s|
    ensures forall i :: 0 <= i < |s| ==> r[i] == LowerChar(s[i])
  {
    seq(|s|, i requires 0 <= i < |s| => LowerChar(s[i]))
  }

  predicate StartsWith(s: string, prefix: string) {
    |prefix| <= |s| && s[..|prefix|] == prefix
  }

  /** `String.prototype.includes`: `sub` occurs at some position of `s`. */
  predicate Contains(s: string, sub: string)
    decreases |s|
  {
    StartsWith(s, sub) || (s != [] && Contains(s[1..], sub))
  }

  /** Every character of a string that occurs in `s` is a character of `s`. */
  lemma {:induction false} ContainsHasChars(s: string, sub: string, j: nat)
    requires j < |sub| && Contains(s, sub)
    ensures sub[j] in s
    decreases |s|
  {
    if StartsWith(s, sub) {
      assert s[j] == sub[j];
    } else {
      ContainsHasChars(s[1..], sub, j);
    }
  }

  /** `sub` found at position `i` of `s` means `s` contains it. */
  lemma {:induction false} ContainsAt(s: string, sub: string, i: nat)
    requires i + |sub| <= |s| && s[i..i + |sub|] == sub
    ensures Contains(s, sub)
    decreases i
  {
    if i > 0 {
      assert s[1..][i - 1..i - 1 + |sub|] == sub;
      ContainsAt(s[1..], sub, i - 1);
    }
  }

  /** `String.prototype.split` on a one-character separator: the pieces between
      separators, so there is always at least one piece and none holds `sep`. */
  function Split(s: string, sep: char): (r: seq<string>)
    ensures |r| >= 1
    ensures forall i :: 0 <= i < |r| ==> sep !in r[i]
    decreases |s|
  {
    if s == [] then [""]
    else
      var rest := Split(s[1..], sep);
      if s[0] == sep then [""] + rest else [[s[0]] + rest[0]] + rest[1..]
  }

  /** `Array.prototype.join` with a one-character separator. */
  function Join(pieces: seq<string>, sep: char): string
    requires |pieces| >= 1
  {
    if |pieces| == 1 then pieces[0] else pieces[0] + [sep] + Join(pieces[1..], sep)
  }

  /** Splitting loses nothing: joining the pieces back gives the input. */
  lemma {:induction false} JoinSplit(s: string, sep: char)
    ensures Join(Split(s, sep), sep) == s
  {
    if s != [] {
      var rest := Split(s[1..], sep);
      JoinSplit(s[1..], sep);
      if s[0] == sep {
        assert Split(s, sep)[1..] == rest;
      } else {
        var r := Split(s, sep);
        if |rest| == 1 {
          assert r == [[s[0]] + rest[0]];
        } else {
          assert r[1..] == rest[1..];
          assert Join(rest, sep) == rest[0] + [sep] + Join(rest[1..], sep);
        }
      }
    }
  }

  /** The first piece of a split is the text before the first separator:
      a prefix of `s` that is either all of `s` or is followed by `sep`. */
  lemma {:induction false} SplitHead(s: string, sep: char)
    ensures StartsWith(s, Split(s, sep)[0])
    ensures Split(s, sep)[0] == s || s[|Split(s, sep)[0]|] == sep
  {
    if s != [] && s[0] != sep {
      SplitHead(s[1..], sep);
    }
  }

  /** Reading one more separator opens an empty last piece. */
  lemma {:induction false} SplitSnocSep(s: string, sep: char)
    ensures Split(s + [sep], sep) == Split(s, sep) + [""]
    decreases |s|
  {
    if s == [] {
      assert ([] + [sep])[1..] == [];
    } else {
      var rest := Split(s[1..], sep);
      assert (s + [sep])[1..] == s[1..] + [sep];
      SplitSnocSep(s[1..], sep);
      if s[0] != sep {
        var rest' := Split(s[1..] + [sep], sep);
        assert rest'[0] == rest[0];
        assert rest'[1..] == rest[1..] + [""];
      }
    }
  }

  /** A single character other than the separator is one piece. */
  lemma SplitOne(c: char, sep: char)
    requires c != sep
    ensures Split([c], sep) == [[c]]
  {
    var one := [c];
    assert one[1..] == [] && one[0] == c;
    assert Split(one[1..], sep) == [""];
    assert [c] + "" == one;
  }

  /** Reading one more character that is not the separator grows the last
      piece. */
  lemma {:induction false} SplitSnocOther(s: string, c: char, sep: char)
    requires c != sep
    ensures var r := Split(s, sep);
            Split(s + [c], sep) == r[..|r| - 1] + [r[|r| - 1] + [c]]
    decreases |s|
  {
    var r := Split(s, sep);
    if s == [] {
      SplitOne(c, sep);
      assert s + [c] == [c] && r == [""];
    } else {
      var rest := Split(s[1..], sep);
      var m := |rest|;
      assert (s + [c])[1..] == s[1..] + [c];
      SplitSnocOther(s[1..], c, sep);
      var rest' := Split(s[1..] + [c], sep);
      assert rest' == rest[..m - 1] + [rest[m - 1] + [c]];
      if s[0] == sep {
        assert r == [""] + rest;
        assert r[..|r| - 1] == [""] + rest[..m - 1];
      } else if m == 1 {
        assert r == [[s[0]] + rest[0]];
        assert Split(s + [c], sep) == [[s[0]] + (rest[0] + [c])];
        assert [s[0]] + (rest[0] + [c]) == ([s[0]] + rest[0]) + [c];
      } else {
        assert r == [[s[0]] + rest[0]] + rest[1..];
        assert Split(s + [c], sep) == [[s[0]] + rest'[0]] + rest'[1..];
        assert rest'[0] == rest[0];
        assert rest'[1..] == rest[1..m - 1] + [rest[m - 1] + [c]];
        assert r[..|r| - 1] == [[s[0]] + rest[0]] + rest[1..m - 1];
      }
    }
  }

  /** Joining with one more piece adds the separator and that piece. */
  lemma {:induction false} JoinSnoc(pieces: seq<string>, x: string, sep: char)
    requires |pieces| >= 1
    ensures Join(pieces + [x], sep) == Join(pieces, sep) + [sep] + x
    decreases |pieces|
  {
    if |pieces| > 1 {
      assert (pieces + [x])[1..] == pieces[1..] + [x];
      JoinSnoc(pieces[1..], x, sep);
    }
  }

  /** Growing the last piece by one character grows the join by it. */
  lemma JoinExtendLast(pieces: seq<string>, c: char, sep: char)
    requires |pieces| >= 1
    ensures var n := |pieces|;
            Join(pieces[..n - 1] + [pieces[n - 1] + [c]], sep) == Join(pieces, sep) + [c]
  {
    var n := |pieces|;
    if n > 1 {
      var init := pieces[..n - 1];
      assert pieces == init + [pieces[n - 1]];
      JoinSnoc(init, pieces[n - 1], sep);
      JoinSnoc(init, pieces[n - 1] + [c], sep);
    }
  }
}
