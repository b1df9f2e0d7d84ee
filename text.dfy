/** The string operations the command parser is built from, with Rust's semantics:
    `str::split(" ")`, `str::trim` and `char::is_whitespace`. */
module Text {

  /** The characters with the Unicode White_Space property, which `char::is_whitespace` tests. */
  const WHITESPACE: set<char> := {
    '\t', '\n', '\U{B}', '\U{C}', '\r', ' ', '\U{85}', '\U{A0}', '\U{1680}',
    '\U{2000}', '\U{2001}', '\U{2002}', '\U{2003}', '\U{2004}', '\U{2005}', '\U{2006}',
    '\U{2007}', '\U{2008}', '\U{2009}', '\U{200A}',
    '\U{2028}', '\U{2029}', '\U{202F}', '\U{205F}', '\U{3000}'
  }

  predicate IsWhitespace(c: char)
  {
    c in WHITESPACE
  }

  predicate AllWhitespace(s: string)
  {
    forall i :: 0 <= i < |s| ==> IsWhitespace(s[i])
  }

  /** The non-whitespace characters of `s`, in order: what trimming and splitting must never lose. */
  function Strip(s: string): (r: string)
    ensures |r| <= |s|
  {
    if s == [] then []
    else (if IsWhitespace(s[0]) then [] else [s[0]]) + Strip(s[1..])
  }

  lemma {:induction false} StripConcat(a: string, b: string)
    ensures Strip(a + b) == Strip(a) + Strip(b)
  {
    if a == [] {
      assert a + b == b;
    } else {
      assert (a + b)[1..] == a[1..] + b;
      StripConcat(a[1..], b);
    }
  }

  lemma {:induction false} StripEmptyIsAllWhitespace(s: string)
    ensures Strip(s) == [] <==> AllWhitespace(s)
  {
    if s != [] {
      StripEmptyIsAllWhitespace(s[1..]);
      assert AllWhitespace(s) <==> IsWhitespace(s[0]) && AllWhitespace(s[1..]) by {
        if AllWhitespace(s[1..]) && IsWhitespace(s[0]) {
          forall i | 0 <= i < |s| ensures IsWhitespace(s[i]) {
            if i > 0 { assert s[i] == s[1..][i - 1]; }
          }
        }
      }
    }
  }

  /** `str::trim_start`: a suffix of `s` that does not start with whitespace. */
  function TrimStart(s: string): (r: string)
    ensures |r| <= |s| && r == s[|s| - |r|..]
    ensures r == [] || !IsWhitespace(r[0])
  {
    if s != [] && IsWhitespace(s[0]) then
      var r := TrimStart(s[1..]);
      assert s[1..][|s| - 1 - |r|..] == s[|s| - |r|..];
      r
    else s
  }

  /** `str::trim_end`: a prefix of `s` that does not end with whitespace. */
  function TrimEnd(s: string): (r: string)
    ensures |r| <= |s| && r == s[..|r|]
    ensures r == [] || !IsWhitespace(r[|r| - 1])
  {
    if s != [] && IsWhitespace(s[|s| - 1]) then
      var r := TrimEnd(s[..|s| - 1]);
      assert s[..|s| - 1][..|r|] == s[..|r|];
      r
    else s
  }

  /** `trim_start` drops only whitespace. */
  lemma TrimStartKeepsText(s: string)
    ensures AllWhitespace(s[..|s| - |TrimStart(s)|])
    ensures Strip(TrimStart(s)) == Strip(s)
  {
    TrimStartDropsWhitespace(s);
    TrimStartKeepsStrip(s);
  }

  lemma {:induction false} TrimStartDropsWhitespace(s: string)
    ensures AllWhitespace(s[..|s| - |TrimStart(s)|])
  {
    if s != [] && IsWhitespace(s[0]) {
      var t := s[1..];
      var k := |s| - |TrimStart(t)|;
      TrimStartDropsWhitespace(t);
      forall i | 0 <= i < k ensures IsWhitespace(s[..k][i]) {
        if i == 0 {
          assert s[..k][i] == s[0];
        } else {
          assert s[..k][i] == t[..k - 1][i - 1];
        }
      }
    } else {
      assert s[..0] == [];
    }
  }

  lemma {:induction false} TrimStartKeepsStrip(s: string)
    ensures Strip(TrimStart(s)) == Strip(s)
  {
    if s != [] && IsWhitespace(s[0]) {
      TrimStartKeepsStrip(s[1..]);
      assert Strip(s) == [] + Strip(s[1..]);
    }
  }

  /** `trim_end` drops only whitespace. */
  lemma TrimEndKeepsText(s: string)
    ensures AllWhitespace(s[|TrimEnd(s)|..])
    ensures Strip(TrimEnd(s)) == Strip(s)
  {
    TrimEndDropsWhitespace(s);
    TrimEndKeepsStrip(s);
  }

  lemma {:induction false} TrimEndDropsWhitespace(s: string)
    ensures AllWhitespace(s[|TrimEnd(s)|..])
  {
    if s != [] && IsWhitespace(s[|s| - 1]) {
      var init := s[..|s| - 1];
      var n := |TrimEnd(init)|;
      TrimEndDropsWhitespace(init);
      AllWhitespaceSnoc(init[n..], s[|s| - 1]);
      assert s[n..] == init[n..] + [s[|s| - 1]];
    } else {
      assert s[|s|..] == [];
    }
  }

  lemma {:induction false} TrimEndKeepsStrip(s: string)
    ensures Strip(TrimEnd(s)) == Strip(s)
  {
    if s != [] && IsWhitespace(s[|s| - 1]) {
      var init := s[..|s| - 1];
      var last := [s[|s| - 1]];
      TrimEndKeepsStrip(init);
      assert s == init + last;
      StripConcat(init, last);
      assert Strip(last) == [] + Strip(last[1..]);
      assert last[1..] == [];
    }
  }

  lemma AllWhitespaceSnoc(s: string, c: char)
    requires AllWhitespace(s) && IsWhitespace(c)
    ensures AllWhitespace(s + [c])
  {
    forall i | 0 <= i < |s + [c]| ensures IsWhitespace((s + [c])[i]) {
      if i < |s| { assert (s + [c])[i] == s[i]; }
    }
  }

  /** `str::trim`: the longest slice of `s` with no whitespace at either end. */
  function Trim(s: string): (r: string)
    ensures |r| <= |s|
    ensures r == [] || (!IsWhitespace(r[0]) && !IsWhitespace(r[|r| - 1]))
    ensures Strip(r) == Strip(s)
    ensures r == [] <==> AllWhitespace(s)
  {
    var r := TrimEnd(TrimStart(s));
    TrimStartKeepsText(s);
    TrimEndKeepsText(TrimStart(s));
    StripEmptyIsAllWhitespace(s);
    StripEmptyIsAllWhitespace(r);
    r
  }

  /** `trim` removes whitespace at the two ends only: its result is one contiguous slice of the
      input, with nothing but whitespace before and after it. */
  lemma TrimIsSlice(s: string)
    ensures var r := Trim(s);
            exists k :: 0 <= k <= |s| - |r| && r == s[k..k + |r|] && AllWhitespace(s[..k]) && AllWhitespace(s[k + |r|..])
  {
    var m := TrimStart(s);
    var r := TrimEnd(m);
    var k := |s| - |m|;
    TrimStartDropsWhitespace(s);
    TrimEndDropsWhitespace(m);
    assert s[k..k + |r|] == r;
    assert s[k + |r|..] == m[|r|..];
    assert 0 <= k <= |s| - |r| && r == s[k..k + |r|] && AllWhitespace(s[..k]) && AllWhitespace(s[k + |r|..]);
  }

  /** Position of the first occurrence of `c` in `s`. */
  function IndexOf(s: string, c: char): (i: nat)
    requires c in s
    ensures i < |s| && s[i] == c && c !in s[..i]
  {
    if s[0] == c then 0
    else
      var j := IndexOf(s[1..], c);
      assert s[..j + 1] == [s[0]] + s[1..][..j];
      j + 1
  }

  /** Pieces glued back together with one space between neighbours. */
  function Join(pieces: seq<string>): string
  {
    if pieces == [] then []
    else if |pieces| == 1 then pieces[0]
    else pieces[0] + [' '] + Join(pieces[1..])
  }

  /** Concatenation of all pieces, with nothing between them. */
  function Concat(pieces: seq<string>): string
  {
    if pieces == [] then [] else pieces[0] + Concat(pieces[1..])
  }

  /** `str::split(" ")`: the maximal space-free pieces between single spaces, empty ones included. */
  function Split(s: string): (pieces: seq<string>)
    ensures |pieces| >= 1
    ensures forall i :: 0 <= i < |pieces| ==> ' ' !in pieces[i]
    ensures Join(pieces) == s
    decreases |s|
  {
    if ' ' !in s then [s]
    else
      var i := IndexOf(s, ' ');
      var rest := Split(s[i + 1..]);
      assert s == s[..i] + [' '] + s[i + 1..];
      [s[..i]] + rest
  }

  /** Splitting undoes joining, for pieces that hold no space themselves. */
  lemma {:induction false} SplitJoin(pieces: seq<string>)
    requires |pieces| >= 1
    requires forall i :: 0 <= i < |pieces| ==> ' ' !in pieces[i]
    ensures Split(Join(pieces)) == pieces
  {
    if |pieces| > 1 {
      var p, rest := pieces[0], pieces[1..];
      var s := Join(pieces);
      assert s == p + [' '] + Join(rest);
      assert s[|p|] == ' ';
      assert s[..|p|] == p;
      assert IndexOf(s, ' ') == |p|;
      assert s[|p| + 1..] == Join(rest);
      SplitJoin(rest);
    }
  }

  /** Trimming adds no character: a space-free string trims to a space-free string. */
  lemma TrimKeepsSpaceOut(s: string)
    requires ' ' !in s
    ensures ' ' !in Trim(s)
  {
    var m := TrimStart(s);
    var r := TrimEnd(m);
    forall j | 0 <= j < |r| ensures r[j] != ' ' {
      assert r[j] == m[j] == s[|s| - |m| + j];
    }
  }

  /** A non-empty string with no whitespace at either end. */
  predicate IsWord(t: string)
  {
    t != [] && !IsWhitespace(t[0]) && !IsWhitespace(t[|t| - 1])
  }

  /** The `.filter(|p| p.trim().len() > 0).map(|w| w.trim())` stage of the parser. */
  function Tokens(pieces: seq<string>): (tokens: seq<string>)
    ensures |tokens| <= |pieces|
  {
    if pieces == [] then []
    else
      var t := Trim(pieces[0]);
      var rest := Tokens(pieces[1..]);
      if |t| > 0 then [t] + rest else rest
  }

  /** The filter/trim stage works piece by piece: the tokens of two runs of pieces, one after the other. */
  lemma {:induction false} TokensConcat(p: seq<string>, q: seq<string>)
    ensures Tokens(p + q) == Tokens(p) + Tokens(q)
  {
    if p == [] {
      assert p + q == q;
    } else {
      assert (p + q)[0] == p[0];
      assert (p + q)[1..] == p[1..] + q;
      TokensConcat(p[1..], q);
    }
  }

  /** A blank piece is filtered out; any other piece is kept, trimmed. */
  lemma TokensSingle(x: string)
    ensures Tokens([x]) == (if AllWhitespace(x) then [] else [Trim(x)])
  {
    assert [x][1..] == [];
  }

  /** Every token is a word: non-empty, with no whitespace at either end. */
  lemma {:induction false} TokensAreWords(pieces: seq<string>)
    ensures forall i :: 0 <= i < |Tokens(pieces)| ==> IsWord(Tokens(pieces)[i])
  {
    if pieces != [] {
      var t := Trim(pieces[0]);
      var rest := Tokens(pieces[1..]);
      TokensAreWords(pieces[1..]);
      if |t| > 0 {
        forall i | 0 <= i < |[t] + rest| ensures IsWord(([t] + rest)[i]) {
          if i > 0 { assert ([t] + rest)[i] == rest[i - 1]; }
        }
      }
    }
  }

  /** Dropping the first of a list of space-free words leaves space-free words. */
  lemma TailWords(words: seq<string>)
    requires words != []
    requires forall i :: 0 <= i < |words| ==> IsWord(words[i])
    requires forall i :: 0 <= i < |words| ==> ' ' !in words[i]
    ensures forall i :: 0 <= i < |words[1..]| ==> IsWord(words[1..][i]) && ' ' !in words[1..][i]
  {
    forall i | 0 <= i < |words[1..]| ensures IsWord(words[1..][i]) && ' ' !in words[1..][i] {
      assert words[1..][i] == words[i + 1];
    }
  }

  /** Trimming a word changes nothing. */
  lemma TrimOfWord(t: string)
    requires IsWord(t)
    ensures Trim(t) == t
  {
  }

  /** Words taken from space-free pieces hold no space either. */
  lemma {:induction false} TokensHaveNoSpace(pieces: seq<string>)
    requires forall i :: 0 <= i < |pieces| ==> ' ' !in pieces[i]
    ensures forall i :: 0 <= i < |Tokens(pieces)| ==> ' ' !in Tokens(pieces)[i]
  {
    if pieces != [] {
      var t := Trim(pieces[0]);
      var rest := Tokens(pieces[1..]);
      TokensHaveNoSpace(pieces[1..]);
      TrimKeepsSpaceOut(pieces[0]);
      if |t| > 0 {
        forall i | 0 <= i < |[t] + rest| ensures ' ' !in ([t] + rest)[i] {
          if i > 0 { assert ([t] + rest)[i] == rest[i - 1]; }
        }
      }
    }
  }

  lemma {:induction false} StripJoin(pieces: seq<string>)
    ensures Strip(Join(pieces)) == Strip(Concat(pieces))
  {
    if |pieces| == 1 {
      assert pieces[1..] == [];
      assert Concat(pieces) == pieces[0] + [];
      assert pieces[0] + [] == pieces[0];
    } else if |pieces| > 1 {
      var p, rest := pieces[0], pieces[1..];
      assert Join(pieces) == (p + [' ']) + Join(rest);
      assert Concat(pieces) == p + Concat(rest);
      StripConcat(p + [' '], Join(rest));
      StripConcat(p, [' ']);
      assert Strip([' ']) == [] + Strip([]);
      StripConcat(p, Concat(rest));
      StripJoin(rest);
    }
  }

  lemma {:induction false} StripTokens(pieces: seq<string>)
    ensures Strip(Concat(Tokens(pieces))) == Strip(Concat(pieces))
  {
    if pieces != [] {
      var t := Trim(pieces[0]);
      StripTokens(pieces[1..]);
      StripConcat(pieces[0], Concat(pieces[1..]));
      if |t| > 0 {
        StripConcat(t, Concat(Tokens(pieces[1..])));
      } else {
        StripEmptyIsAllWhitespace(pieces[0]);
      }
    }
  }

  /** Splitting on spaces and trimming the pieces loses only whitespace:
      the words, read together, hold every other character of the input, in order. */
  lemma WordsKeepText(s: string)
    ensures Strip(Concat(Tokens(Split(s)))) == Strip(s)
  {
    StripTokens(Split(s));
    StripJoin(Split(s));
  }

  /** There is no word exactly when the input is all whitespace. */
  lemma NoWordsIffBlank(s: string)
    ensures Tokens(Split(s)) == [] <==> AllWhitespace(s)
  {
    var ts := Tokens(Split(s));
    WordsKeepText(s);
    StripEmptyIsAllWhitespace(s);
    if ts != [] {
      TokensAreWords(Split(s));
      StripConcat(ts[0], Concat(ts[1..]));
      assert Strip(ts[0]) != [] by {
        assert !IsWhitespace(ts[0][0]);
      }
    }
  }
}
