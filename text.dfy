/** The string operations the script borrows from JavaScript:
    `String.prototype.trim`, `split(/\s+/)`, `Array.prototype.join`,
    `includes`, and `replace` with a global literal pattern and a string
    replacement. Strings are sequences of characters. */
module Text {

  /** JavaScript's white space and line terminators: the characters that
      both `trim` and the regular-expression class `\s` match. */
  predicate IsWhitespace(c: char) {
    || c == '\t' || c == '\n' || c == '\U{000B}' || c == '\U{000C}' || c == '\r'
    || c == ' ' || c == '\U{00A0}' || c == '\U{1680}'
    || ('\U{2000}' <= c <= '\U{200A}')
    || c == '\U{2028}' || c == '\U{2029}' || c == '\U{202F}' || c == '\U{205F}'
    || c == '\U{3000}' || c == '\U{FEFF}'
  }

  predicate AllWhitespace(s: string) {
    forall i :: 0 <= i < |s| ==> IsWhitespace(s[i])
  }

  predicate NoWhitespace(s: string) {
    forall i :: 0 <= i < |s| ==> !IsWhitespace(s[i])
  }

  // ---------------------------------------------------------------------
  // trim

  /** The index of the first character at or after `i` that is not white
      space (or `|s|`). */
  function SkipForward(s: string, i: nat): (j: nat)
    requires i <= |s|
    ensures i <= j <= |s|
    ensures forall k :: i <= k < j ==> IsWhitespace(s[k])
    ensures j < |s| ==> !IsWhitespace(s[j])
    decreases |s| - i
  {
    if i < |s| && IsWhitespace(s[i]) then SkipForward(s, i + 1) else i
  }

  /** The index just after the last character before `j` and at or after
      `lo` that is not white space (or `lo`). */
  function SkipBackward(s: string, lo: nat, j: nat): (i: nat)
    requires lo <= j <= |s|
    ensures lo <= i <= j
    ensures forall k :: i <= k < j ==> IsWhitespace(s[k])
    ensures i > lo ==> !IsWhitespace(s[i - 1])
    decreases j - lo
  {
    if j > lo && IsWhitespace(s[j - 1]) then SkipBackward(s, lo, j - 1) else j
  }

  /** `String.prototype.trim`: the result is the slice of `s` that starts
      after its leading white space, it is followed in `s` only by white
      space, and it neither starts nor ends with white space. */
  function Trim(s: string): (r: string)
    ensures r != [] ==> !IsWhitespace(r[0]) && !IsWhitespace(r[|r| - 1])
    ensures var i := SkipForward(s, 0);
            && i + |r| <= |s| && r == s[i..i + |r|]
            && AllWhitespace(s[..i]) && AllWhitespace(s[i + |r|..])
  {
    var i := SkipForward(s, 0);
    var j := SkipBackward(s, i, |s|);
    assert AllWhitespace(s[..i]) by {
      forall k | 0 <= k < i ensures IsWhitespace(s[..i][k]) {
        assert s[..i][k] == s[k];
      }
    }
    assert AllWhitespace(s[j..]) by {
      forall k | 0 <= k < |s| - j ensures IsWhitespace(s[j..][k]) {
        assert s[j..][k] == s[j + k];
      }
    }
    s[i..j]
  }

  /** Trimming leaves nothing exactly when the text is all white space. */
  lemma TrimEmptyIffAllWhitespace(s: string)
    ensures Trim(s) == [] <==> AllWhitespace(s)
  {
    var r := Trim(s);
    var i := SkipForward(s, 0);
    if r == [] {
      forall k | 0 <= k < |s| ensures IsWhitespace(s[k]) {
        assert s[k] == s[..i][k];
      }
    } else {
      assert r[0] == s[i];
    }
  }

  // ---------------------------------------------------------------------
  // split(/\s+/)

  /** `s.split(/\s+/)`: the pieces between maximal runs of white space, in
      order. A leading run gives a leading empty piece, a trailing run a
      trailing one, and the empty string gives one empty piece: the result
      is never empty. */
  function Split(s: string): (r: seq<string>)
    ensures |r| >= 1
    ensures forall k :: 0 <= k < |r| ==> NoWhitespace(r[k])
    decreases |s|
  {
    if s == [] then [""]
    else
      var rest := Split(s[1..]);
      if !IsWhitespace(s[0]) then [[s[0]] + rest[0]] + rest[1..]
      else if |s| > 1 && IsWhitespace(s[1]) then rest
      else [""] + rest
  }

  /** Of a string that does not end in white space, every piece after the
      first is a non-empty token, and the first is empty exactly when the
      string is empty or starts with white space. */
  lemma {:induction false} SplitPieces(s: string)
    requires s == [] || !IsWhitespace(s[|s| - 1])
    ensures Split(s)[0] == [] <==> (s == [] || IsWhitespace(s[0]))
    ensures forall k :: 1 <= k < |Split(s)| ==> Split(s)[k] != []
    decreases |s|
  {
    if s != [] {
      var t := s[1..];
      if t != [] {
        assert t[|t| - 1] == s[|s| - 1];
        SplitPieces(t);
      }
    }
  }

  /** The tokens of trimmed text: one empty token for empty text, otherwise
      non-empty tokens free of white space. */
  lemma TokensOfTrimmed(t: string)
    requires t != [] ==> !IsWhitespace(t[0]) && !IsWhitespace(t[|t| - 1])
    ensures t == [] ==> Split(t) == [""]
    ensures t != [] ==> forall k :: 0 <= k < |Split(t)| ==> Split(t)[k] != []
  {
    SplitPieces(t);
  }

  /** `words.join(sep)`. */
  function JoinWith(words: seq<string>, sep: string): (r: string)
    ensures |words| == 0 ==> r == []
    ensures |words| == 1 ==> r == words[0]
    ensures |words| > 1 ==> r == words[0] + sep + JoinWith(words[1..], sep)
  {
    if |words| == 0 then []
    else if |words| == 1 then words[0]
    else words[0] + sep + JoinWith(words[1..], sep)
  }

  /** A character that is in no word and not in the separator is not in
      the joined string. */
  lemma {:induction false} JoinWithAvoids(words: seq<string>, sep: string, c: char)
    requires c !in sep
    requires forall k :: 0 <= k < |words| ==> c !in words[k]
    ensures c !in JoinWith(words, sep)
  {
    if |words| > 1 {
      JoinWithAvoids(words[1..], sep, c);
    }
  }

  /** Appending a word to a non-empty list appends the separator and the
      word: the separator stands exactly between neighbouring words. */
  lemma {:induction false} JoinWithSnoc(words: seq<string>, w: string, sep: string)
    requires |words| > 0
    ensures JoinWith(words + [w], sep) == JoinWith(words, sep) + sep + w
    decreases |words|
  {
    if |words| > 1 {
      JoinWithSnoc(words[1..], w, sep);
      assert (words + [w])[1..] == words[1..] + [w];
    } else {
      assert (words + [w])[1..] == [w];
    }
  }

  lemma {:induction false} SplitOneWord(w: string)
    requires NoWhitespace(w)
    ensures Split(w) == [w]
    decreases |w|
  {
    if w != [] {
      SplitOneWord(w[1..]);
      assert [w[0]] + w[1..] == w;
    }
  }

  lemma {:induction false} SplitWordThenSpace(w: string, rest: string)
    requires NoWhitespace(w)
    requires rest != [] && !IsWhitespace(rest[0])
    ensures Split(w + " " + rest) == [w] + Split(rest)
    decreases |w|
  {
    var s := w + " " + rest;
    if w == [] {
      assert s == " " + rest && s[1..] == rest;
    } else {
      assert s[1..] == w[1..] + " " + rest;
      SplitWordThenSpace(w[1..], rest);
      assert [w[0]] + w[1..] == w;
    }
  }

  /** Joining non-empty words with single spaces and splitting the result
      on white space gives the words back: the tokenizer inverts the join. */
  lemma {:induction false} SplitJoinRoundTrip(words: seq<string>)
    requires |words| >= 1
    requires forall k :: 0 <= k < |words| ==> words[k] != [] && NoWhitespace(words[k])
    ensures Split(JoinWith(words, " ")) == words
  {
    if |words| == 1 {
      SplitOneWord(words[0]);
    } else {
      var rest := JoinWith(words[1..], " ");
      SplitJoinRoundTrip(words[1..]);
      JoinWithStartsWith(words[1..]);
      SplitWordThenSpace(words[0], rest);
      assert words == [words[0]] + words[1..];
    }
  }

  lemma {:induction false} JoinWithStartsWith(words: seq<string>)
    requires |words| >= 1 && words[0] != []
    ensures JoinWith(words, " ") != [] && JoinWith(words, " ")[0] == words[0][0]
  {
  }

  // ---------------------------------------------------------------------
  // includes

  /** `sub` occurs in `s` starting at index `i`. */
  predicate OccursAt(s: string, sub: string, i: int) {
    0 <= i && i + |sub| <= |s| && s[i..i + |sub|] == sub
  }

  /** `s.includes(sub)`, scanning from the left. */
  function Contains(s: string, sub: string): bool
    decreases |s|
  {
    if |sub| > |s| then false
    else if s[..|sub|] == sub then true
    else Contains(s[1..], sub)
  }

  /** The scan finds `sub` exactly when it occurs somewhere in `s`. */
  lemma {:induction false} ContainsIffOccurs(s: string, sub: string)
    ensures Contains(s, sub) <==> exists i :: OccursAt(s, sub, i)
    decreases |s|
  {
    if |sub| > |s| {
    } else if s[..|sub|] == sub {
      assert OccursAt(s, sub, 0);
    } else {
      ContainsIffOccurs(s[1..], sub);
      if exists i :: OccursAt(s[1..], sub, i) {
        var i :| OccursAt(s[1..], sub, i);
        assert s[i + 1..i + 1 + |sub|] == s[1..][i..i + |sub|];
        assert OccursAt(s, sub, i + 1);
      }
      if exists i :: OccursAt(s, sub, i) {
        var i :| OccursAt(s, sub, i);
        assert i != 0;
        assert s[1..][i - 1..i - 1 + |sub|] == s[i..i + |sub|];
        assert OccursAt(s[1..], sub, i - 1);
      }
    }
  }

  // ---------------------------------------------------------------------
  // replace(/literal/g, replacement)

  /** The text a string replacement stands for at one match (the
      GetSubstitution step of `String.prototype.replace`, for a pattern
      without capture groups): `$$` is one `$`, `$&` the matched text,
      `` $` `` the text before the match, `$'` the text after it; every
      other character, `$` included, stands for itself. */
  function Substitution(rep: string, s: string, pos: nat, len: nat): string
    requires pos + len <= |s|
    decreases |rep|
  {
    if rep == [] then []
    else if rep[0] == '$' && |rep| >= 2 then
      if rep[1] == '$' then "$" + Substitution(rep[2..], s, pos, len)
      else if rep[1] == '&' then s[pos..pos + len] + Substitution(rep[2..], s, pos, len)
      else if rep[1] == '`' then s[..pos] + Substitution(rep[2..], s, pos, len)
      else if rep[1] == '\'' then s[pos + len..] + Substitution(rep[2..], s, pos, len)
      else "$" + Substitution(rep[1..], s, pos, len)
    else [rep[0]] + Substitution(rep[1..], s, pos, len)
  }

  /** The global replacement scanning `s` from index `i`: the leftmost match
      is replaced, and the scan resumes after it. */
  function ReplaceFrom(s: string, pat: string, rep: string, i: nat): string
    requires pat != [] && i <= |s|
    decreases |s| - i
  {
    if |s| - i < |pat| then s[i..]
    else if s[i..i + |pat|] == pat then
      Substitution(rep, s, i, |pat|) + ReplaceFrom(s, pat, rep, i + |pat|)
    else [s[i]] + ReplaceFrom(s, pat, rep, i + 1)
  }

  /** `s.replace(new RegExp(pat, 'g'), rep)` for a pattern that matches only
      the literal text `pat`. */
  function ReplaceAll(s: string, pat: string, rep: string): string
    requires pat != []
  {
    ReplaceFrom(s, pat, rep, 0)
  }

  /** Replacement of every leftmost, non-overlapping occurrence of `pat` by
      the literal text `rep`. */
  function LiteralReplace(s: string, pat: string, rep: string): string
    requires pat != []
    decreases |s|
  {
    if |s| < |pat| then s
    else if s[..|pat|] == pat then rep + LiteralReplace(s[|pat|..], pat, rep)
    else [s[0]] + LiteralReplace(s[1..], pat, rep)
  }

  /** A replacement without `$` stands for itself. */
  lemma {:induction false} SubstitutionWithoutDollar(rep: string, s: string, pos: nat, len: nat)
    requires pos + len <= |s|
    requires '$' !in rep
    ensures Substitution(rep, s, pos, len) == rep
    decreases |rep|
  {
    if rep != [] {
      assert rep[0] != '$';
      SubstitutionWithoutDollar(rep[1..], s, pos, len);
      assert [rep[0]] + rep[1..] == rep;
    }
  }

  /** The four special patterns at the head of a replacement: `$$` gives
      one `$`, `$&` the matched text, `` $` `` the text before the match and
      `$'` the text after it; the rest of the replacement follows. */
  lemma SubstitutionPatterns(rest: string, s: string, pos: nat, len: nat)
    requires pos + len <= |s|
    ensures Substitution("$$" + rest, s, pos, len) == "$" + Substitution(rest, s, pos, len)
    ensures Substitution("$&" + rest, s, pos, len) == s[pos..pos + len] + Substitution(rest, s, pos, len)
    ensures Substitution("$`" + rest, s, pos, len) == s[..pos] + Substitution(rest, s, pos, len)
    ensures Substitution("$'" + rest, s, pos, len) == s[pos + len..] + Substitution(rest, s, pos, len)
  {
    assert ("$$" + rest)[2..] == rest;
    assert ("$&" + rest)[2..] == rest;
    assert ("$`" + rest)[2..] == rest;
    assert ("$'" + rest)[2..] == rest;
  }

  lemma {:induction false} ReplaceFromWithoutDollar(s: string, pat: string, rep: string, i: nat)
    requires pat != [] && i <= |s|
    requires '$' !in rep
    ensures ReplaceFrom(s, pat, rep, i) == LiteralReplace(s[i..], pat, rep)
    decreases |s| - i
  {
    if |s| - i < |pat| {
      ShortStep(s, pat, rep, i);
    } else {
      var next := NextScan(s, pat, i);
      ReplaceFromWithoutDollar(s, pat, rep, next);
      LongStep(s, pat, rep, i);
    }
  }

  /** Where the scan resumes after index `i`: past a match, or one further. */
  function NextScan(s: string, pat: string, i: nat): (j: nat)
    requires i + |pat| <= |s|
    ensures i < j <= |s| || pat == []
  {
    if s[i..i + |pat|] == pat then i + |pat| else i + 1
  }

  lemma LongStep(s: string, pat: string, rep: string, i: nat)
    requires pat != [] && i + |pat| <= |s|
    requires '$' !in rep
    requires ReplaceFrom(s, pat, rep, NextScan(s, pat, i)) == LiteralReplace(s[NextScan(s, pat, i)..], pat, rep)
    ensures ReplaceFrom(s, pat, rep, i) == LiteralReplace(s[i..], pat, rep)
  {
    if s[i..i + |pat|] == pat {
      MatchStep(s, pat, rep, i);
    } else {
      MissStep(s, pat, rep, i);
    }
  }

  lemma ShortStep(s: string, pat: string, rep: string, i: nat)
    requires pat != [] && i <= |s| < i + |pat|
    ensures ReplaceFrom(s, pat, rep, i) == LiteralReplace(s[i..], pat, rep)
  {
  }

  lemma MatchStep(s: string, pat: string, rep: string, i: nat)
    requires pat != [] && i + |pat| <= |s| && s[i..i + |pat|] == pat
    requires '$' !in rep
    requires ReplaceFrom(s, pat, rep, i + |pat|) == LiteralReplace(s[i + |pat|..], pat, rep)
    ensures ReplaceFrom(s, pat, rep, i) == LiteralReplace(s[i..], pat, rep)
  {
    var t := s[i..];
    assert t[..|pat|] == pat;
    assert t[|pat|..] == s[i + |pat|..];
    SubstitutionWithoutDollar(rep, s, i, |pat|);
    assert LiteralReplace(t, pat, rep) == rep + LiteralReplace(t[|pat|..], pat, rep);
  }

  lemma MissStep(s: string, pat: string, rep: string, i: nat)
    requires pat != [] && i + |pat| <= |s| && s[i..i + |pat|] != pat
    requires ReplaceFrom(s, pat, rep, i + 1) == LiteralReplace(s[i + 1..], pat, rep)
    ensures ReplaceFrom(s, pat, rep, i) == LiteralReplace(s[i..], pat, rep)
  {
    var t := s[i..];
    assert t[..|pat|] == s[i..i + |pat|];
    assert t[1..] == s[i + 1..];
    assert LiteralReplace(t, pat, rep) == [t[0]] + LiteralReplace(t[1..], pat, rep);
  }

  /** With a replacement free of `$`, JavaScript's global replace is the
      literal replacement of every leftmost, non-overlapping occurrence. */
  lemma ReplaceAllWithoutDollar(s: string, pat: string, rep: string)
    requires pat != []
    requires '$' !in rep
    ensures ReplaceAll(s, pat, rep) == LiteralReplace(s, pat, rep)
  {
    ReplaceFromWithoutDollar(s, pat, rep, 0);
    assert s[0..] == s;
  }

  lemma {:induction false} ReplaceFromNoMatch(s: string, pat: string, rep: string, i: nat)
    requires pat != [] && i <= |s|
    requires forall j :: i <= j ==> !OccursAt(s, pat, j)
    ensures ReplaceFrom(s, pat, rep, i) == s[i..]
    decreases |s| - i
  {
    if |s| - i >= |pat| {
      assert !OccursAt(s, pat, i);
      ReplaceFromNoMatch(s, pat, rep, i + 1);
      assert [s[i]] + s[i + 1..] == s[i..];
    }
  }

  /** Text in which the pattern does not occur is returned unchanged,
      whatever the replacement. */
  lemma ReplaceAllNoMatch(s: string, pat: string, rep: string)
    requires pat != []
    requires !Contains(s, pat)
    ensures ReplaceAll(s, pat, rep) == s
  {
    ContainsIffOccurs(s, pat);
    ReplaceFromNoMatch(s, pat, rep, 0);
  }

  /** Text in which the pattern does not occur is left as it is. */
  lemma {:induction false} LiteralReplaceNoMatch(s: string, pat: string, rep: string)
    requires pat != []
    requires !Contains(s, pat)
    ensures LiteralReplace(s, pat, rep) == s
    decreases |s|
  {
    if |s| >= |pat| {
      LiteralReplaceNoMatch(s[1..], pat, rep);
      assert [s[0]] + s[1..] == s;
    }
  }

  /** The pattern alone is replaced by the replacement. */
  lemma LiteralReplaceWhole(pat: string, rep: string)
    requires pat != []
    ensures LiteralReplace(pat, pat, rep) == rep
  {
    assert pat[..|pat|] == pat && pat[|pat|..] == [];
  }

  /** No occurrence of the pattern in `a + b` starts in `a` and ends in `b`. */
  predicate NoStraddle(a: string, b: string, pat: string) {
    forall o :: 0 <= o < |a| < o + |pat| ==> !OccursAt(a + b, pat, o)
  }

  /** When no occurrence straddles the boundary, the two sides are replaced
      independently. */
  lemma {:induction false} LiteralReplaceAppend(a: string, b: string, pat: string, rep: string)
    requires pat != []
    requires NoStraddle(a, b, pat)
    ensures LiteralReplace(a + b, pat, rep) == LiteralReplace(a, pat, rep) + LiteralReplace(b, pat, rep)
    decreases |a|
  {
    if a == [] {
      assert a + b == b;
    } else if |a + b| < |pat| {
      AppendShort(a, b, pat, rep);
    } else if (a + b)[..|pat|] == pat {
      MatchInside(a, b, pat);
      NoStraddleShift(a, b, pat, |pat|);
      LiteralReplaceAppend(a[|pat|..], b, pat, rep);
      AppendMatch(a, b, pat, rep);
    } else {
      NoStraddleShift(a, b, pat, 1);
      LiteralReplaceAppend(a[1..], b, pat, rep);
      AppendMiss(a, b, pat, rep);
    }
  }

  /** An occurrence at the start of `a + b`, with `a` non-empty, lies
      inside `a`. */
  lemma MatchInside(a: string, b: string, pat: string)
    requires pat != [] && NoStraddle(a, b, pat) && a != []
    requires |a + b| >= |pat| && (a + b)[..|pat|] == pat
    ensures |pat| <= |a|
  {
    assert OccursAt(a + b, pat, 0);
  }

  /** Dropping a prefix of `a` keeps the boundary free of occurrences. */
  lemma NoStraddleShift(a: string, b: string, pat: string, k: nat)
    requires pat != [] && NoStraddle(a, b, pat)
    requires 0 < k <= |a|
    ensures NoStraddle(a[k..], b, pat)
  {
    var s := a + b;
    assert s[k..] == a[k..] + b;
    forall o | 0 <= o < |a[k..]| < o + |pat| ensures !OccursAt(a[k..] + b, pat, o) {
      if o + |pat| <= |a[k..] + b| {
        assert (a[k..] + b)[o..o + |pat|] == s[o + k..o + k + |pat|];
      }
      assert !OccursAt(s, pat, o + k);
    }
  }

  lemma AppendShort(a: string, b: string, pat: string, rep: string)
    requires pat != [] && |a + b| < |pat|
    ensures LiteralReplace(a + b, pat, rep) == LiteralReplace(a, pat, rep) + LiteralReplace(b, pat, rep)
  {
  }

  lemma AppendMatch(a: string, b: string, pat: string, rep: string)
    requires pat != [] && |pat| <= |a| && (a + b)[..|pat|] == pat
    requires LiteralReplace(a[|pat|..] + b, pat, rep) == LiteralReplace(a[|pat|..], pat, rep) + LiteralReplace(b, pat, rep)
    ensures LiteralReplace(a + b, pat, rep) == LiteralReplace(a, pat, rep) + LiteralReplace(b, pat, rep)
  {
    assert a[..|pat|] == pat;
    assert (a + b)[|pat|..] == a[|pat|..] + b;
  }

  lemma AppendMiss(a: string, b: string, pat: string, rep: string)
    requires pat != [] && a != [] && |a + b| >= |pat| && (a + b)[..|pat|] != pat
    requires LiteralReplace(a[1..] + b, pat, rep) == LiteralReplace(a[1..], pat, rep) + LiteralReplace(b, pat, rep)
    ensures LiteralReplace(a + b, pat, rep) == LiteralReplace(a, pat, rep) + LiteralReplace(b, pat, rep)
  {
    var s := a + b;
    assert s[1..] == a[1..] + b;
    assert LiteralReplace(s, pat, rep) == [a[0]] + LiteralReplace(a[1..] + b, pat, rep);
    MissHead(a, pat, rep, b);
  }

  /** Without an occurrence at its start, replacing in `a` keeps its first
      character; `b` is any text that, appended, does not make one. */
  lemma MissHead(a: string, pat: string, rep: string, b: string)
    requires pat != [] && a != []
    requires |a + b| >= |pat| && (a + b)[..|pat|] != pat
    ensures LiteralReplace(a, pat, rep) == [a[0]] + LiteralReplace(a[1..], pat, rep)
  {
    if |a| >= |pat| {
      assert a[..|pat|] == (a + b)[..|pat|];
    } else {
      assert LiteralReplace(a[1..], pat, rep) == a[1..];
      assert a == [a[0]] + a[1..];
    }
  }

}
