/**
 * String operations shared by the server and the browser script, with the
 * JavaScript semantics the source relies on: `\s` / `trim()` white space,
 * `split(',')`, `split(/\s+/)` and `join(sep)`.
 */
module Text {

  /** The characters that JavaScript's `\s` and `String.prototype.trim` treat as white space. */
  predicate IsSpace(c: char) {
    c == ' ' || c == '\t' || c == '\n' || c == '\U{000B}' || c == '\U{000C}' || c == '\r'
    || c == '\U{00A0}' || c == '\U{1680}' || ('\U{2000}' <= c <= '\U{200A}')
    || c == '\U{2028}' || c == '\U{2029}' || c == '\U{202F}' || c == '\U{205F}'
    || c == '\U{3000}' || c == '\U{FEFF}'
  }

  predicate NoSpace(s: string) {
    forall i :: 0 <= i < |s| ==> !IsSpace(s[i])
  }

  predicate AllSpace(s: string) {
    forall i :: 0 <= i < |s| ==> IsSpace(s[i])
  }

  /** Neither end of `s` is white space. */
  predicate Trimmed(s: string) {
    s == [] || (!IsSpace(s[0]) && !IsSpace(s[|s| - 1]))
  }

  /** Leading white space removed: `r` is a suffix of `s` that does not start with white space. */
  function TrimStart(s: string): (r: string)
    ensures |r| <= |s| && r == s[|s| - |r|..]
    ensures r != [] ==> !IsSpace(r[0])
  {
    if |s| > 0 && IsSpace(s[0]) then TrimStart(s[1..]) else s
  }

  /** Trailing white space removed: `r` is a prefix of `s` that does not end with white space. */
  function TrimEnd(s: string): (r: string)
    ensures |r| <= |s| && r == s[..|r|]
    ensures r != [] ==> !IsSpace(r[|r| - 1])
  {
    if |s| > 0 && IsSpace(s[|s| - 1]) then TrimEnd(s[..|s| - 1]) else s
  }

  /** `s.trim()`: neither end of the result is white space. */
  function Trim(s: string): (r: string)
    ensures Trimmed(r) && |r| <= |s|
  {
    var t := TrimStart(s);
    var r := TrimEnd(t);
    assert r != [] ==> r[0] == t[0];
    r
  }

  /** `TrimStart` cuts only white space. */
  lemma {:induction false} TrimStartCut(s: string)
    ensures AllSpace(s[..|s| - |TrimStart(s)|])
  {
    if |s| > 0 && IsSpace(s[0]) {
      TrimStartCut(s[1..]);
      var n := |s| - |TrimStart(s)|;
      assert forall i :: 1 <= i < n ==> s[..n][i] == s[1..][..n - 1][i - 1];
    }
  }

  /** `TrimEnd` cuts only white space. */
  lemma {:induction false} TrimEndCut(s: string)
    ensures AllSpace(s[|TrimEnd(s)|..])
  {
    if |s| > 0 && IsSpace(s[|s| - 1]) {
      TrimEndCut(s[..|s| - 1]);
      var n := |TrimEnd(s)|;
      assert forall i :: 0 <= i < |s| - 1 - n ==> s[n..][i] == s[..|s| - 1][n..][i];
    }
  }

  /** The trimmed string is a slice of `s`, and only white space lies outside it. */
  lemma TrimSlice(s: string)
    ensures exists i, j :: 0 <= i <= j <= |s| && Trim(s) == s[i..j] && AllSpace(s[..i]) && AllSpace(s[j..])
  {
    var t := TrimStart(s);
    var r := TrimEnd(t);
    TrimStartCut(s);
    TrimEndCut(t);
    var i := |s| - |t|;
    assert r == s[i..i + |r|];
    assert s[i + |r|..] == t[|r|..];
  }

  lemma TrimOfTrimmed(s: string)
    requires Trimmed(s)
    ensures Trim(s) == s
  {
  }

  /** A trimmed string behind one space trims back to itself (the `', '` joint of a tag list). */
  lemma {:induction false} TrimAfterSpace(t: string)
    requires Trimmed(t)
    ensures Trim(" " + t) == t
  {
    assert (" " + t)[1..] == t;
    assert TrimStart(" " + t) == TrimStart(t);
    if t != [] {
      assert TrimStart(t) == t;
    }
  }

  /** Trimming keeps out every non-space character that was not there. */
  lemma TrimKeepsOut(s: string, c: char)
    requires !IsSpace(c) && c !in s
    ensures c !in Trim(s)
  {
    var r := Trim(s);
    TrimSlice(s);
    var i, j :| 0 <= i <= j <= |s| && r == s[i..j];
  }

  /** `s.split(c)` for a one-character separator: the pieces between occurrences of `c`. */
  function Split(s: string, c: char): (r: seq<string>)
    ensures |r| >= 1
  {
    if |s| == 0 then [""]
    else if s[0] == c then [""] + Split(s[1..], c)
    else
      var rest := Split(s[1..], c);
      [[s[0]] + rest[0]] + rest[1..]
  }

  /** `parts.join(sep)`. */
  function Join(parts: seq<string>, sep: string): string {
    if |parts| == 0 then ""
    else if |parts| == 1 then parts[0]
    else parts[0] + sep + Join(parts[1..], sep)
  }

  /** No piece produced by `Split` contains the separator. */
  lemma {:induction false} SplitPiecesFree(s: string, c: char)
    ensures forall k :: 0 <= k < |Split(s, c)| ==> c !in Split(s, c)[k]
  {
    if |s| > 0 {
      SplitPiecesFree(s[1..], c);
    }
  }

  /** Splitting then joining with the same separator gives back the string. */
  lemma {:induction false} JoinSplit(s: string, c: char)
    ensures Join(Split(s, c), [c]) == s
  {
    if |s| == 0 {
    } else if s[0] == c {
      JoinSplit(s[1..], c);
      var rest := Split(s[1..], c);
      assert Split(s, c) == [""] + rest;
      if |rest| == 1 {
        assert Join(Split(s, c), [c]) == "" + [c] + rest[0];
      } else {
        assert Join(Split(s, c), [c]) == "" + [c] + Join(rest, [c]);
      }
      assert s == [c] + s[1..];
    } else {
      JoinSplit(s[1..], c);
      var rest := Split(s[1..], c);
      var head := [s[0]] + rest[0];
      assert Split(s, c) == [head] + rest[1..];
      if |rest| == 1 {
        assert Join(Split(s, c), [c]) == head;
        assert s[1..] == rest[0];
      } else {
        assert Join(rest, [c]) == rest[0] + [c] + Join(rest[1..], [c]);
        assert Join(Split(s, c), [c]) == head + [c] + Join(rest[1..], [c]);
      }
      assert s == [s[0]] + s[1..];
    }
  }

  /** A piece free of the separator, then the separator, splits off as the first piece. */
  lemma {:induction false} SplitCons(a: string, c: char, b: string)
    requires c !in a
    ensures Split(a + [c] + b, c) == [a] + Split(b, c)
  {
    if a == [] {
      assert a + [c] + b == [c] + b;
      assert ([c] + b)[1..] == b;
    } else {
      assert (a + [c] + b)[1..] == a[1..] + [c] + b;
      SplitCons(a[1..], c, b);
      assert [a[0]] + a[1..] == a;
    }
  }

  /** A string free of the separator splits into itself. */
  lemma {:induction false} SplitFree(a: string, c: char)
    requires c !in a
    ensures Split(a, c) == [a]
  {
    if a != [] {
      SplitFree(a[1..], c);
      assert [a[0]] + a[1..] == a;
    }
  }

  /** `pad + p` for every piece. */
  function Prefixed(pad: string, ps: seq<string>): (r: seq<string>)
    ensures |r| == |ps| && forall k :: 0 <= k < |ps| ==> r[k] == pad + ps[k]
  {
    if ps == [] then [] else [pad + ps[0]] + Prefixed(pad, ps[1..])
  }

  /**
   * Joining separator-free pieces with `c` followed by a separator-free padding, then
   * splitting on `c`, gives the first piece and every later piece behind the padding.
   */
  lemma {:induction false} SplitJoinPadded(ps: seq<string>, c: char, pad: string)
    requires |ps| >= 1 && c !in pad
    requires forall k :: 0 <= k < |ps| ==> c !in ps[k]
    ensures Split(Join(ps, [c] + pad), c) == [ps[0]] + Prefixed(pad, ps[1..])
  {
    if |ps| == 1 {
      SplitFree(ps[0], c);
    } else {
      var rest := Join(ps[1..], [c] + pad);
      assert Join(ps, [c] + pad) == ps[0] + [c] + (pad + rest);
      SplitCons(ps[0], c, pad + rest);
      SplitJoinPadded(ps[1..], c, pad);
      var tail := Split(rest, c);
      assert tail == [ps[1]] + Prefixed(pad, ps[2..]);
      PrependPadding(pad, rest, c);
      assert Split(pad + rest, c) == [pad + ps[1]] + Prefixed(pad, ps[2..]);
      assert ps[1..][1..] == ps[2..];
    }
  }

  /** Putting a separator-free padding in front of a string extends only its first piece. */
  lemma {:induction false} PrependPadding(pad: string, s: string, c: char)
    requires c !in pad
    ensures Split(pad + s, c) == [pad + Split(s, c)[0]] + Split(s, c)[1..]
  {
    if pad != [] {
      assert (pad + s)[1..] == pad[1..] + s;
      PrependPadding(pad[1..], s, c);
      assert [pad[0]] + (pad[1..] + Split(s, c)[0]) == pad + Split(s, c)[0];
    } else {
      assert pad + s == s;
      var r := Split(s, c);
      assert pad + r[0] == r[0];
      assert r == [r[0]] + r[1..];
    }
  }

  /** Tags as a tag field holds them: each non-empty, trimmed and free of commas. */
  predicate PlainTags(tags: seq<string>) {
    forall k :: 0 <= k < |tags| ==> tags[k] != "" && Trimmed(tags[k]) && ',' !in tags[k]
  }

  /** Splitting `tags.join(', ')` at commas gives the first tag, then each later one behind a space. */
  lemma CommaJoinPieces(tags: seq<string>)
    requires tags != [] && PlainTags(tags)
    ensures var pieces := Split(Join(tags, ", "), ',');
            |pieces| == |tags| && pieces[0] == tags[0] && forall k :: 1 <= k < |tags| ==> pieces[k] == " " + tags[k]
  {
    assert ", " == [','] + " ";
    SplitJoinPadded(tags, ',', " ");
  }

  /** Trimming the comma-separated pieces of `tags.join(', ')` gives the tags back. */
  lemma {:induction false} TrimSplitCommaJoin(tags: seq<string>)
    requires tags != [] && PlainTags(tags)
    ensures TrimAll(Split(Join(tags, ", "), ',')) == tags
  {
    CommaJoinPieces(tags);
    var pieces := Split(Join(tags, ", "), ',');
    var r := TrimAll(pieces);
    assert |r| == |tags|;
    forall k | 0 <= k < |tags|
      ensures r[k] == tags[k]
    {
      if k == 0 {
        TrimOfTrimmed(tags[0]);
      } else {
        assert pieces[k] == " " + tags[k];
        TrimAfterSpace(tags[k]);
      }
    }
  }

  /** `pieces.map(p => p.trim())`. */
  function TrimAll(ps: seq<string>): (r: seq<string>)
    ensures |r| == |ps| && forall k :: 0 <= k < |ps| ==> r[k] == Trim(ps[k])
  {
    if ps == [] then [] else [Trim(ps[0])] + TrimAll(ps[1..])
  }

  /** `pieces.filter(p => p)`: the non-empty pieces, in order. */
  function DropEmpty(ps: seq<string>): (r: seq<string>)
    ensures forall k :: 0 <= k < |r| ==> r[k] != "" && r[k] in ps
    ensures forall p :: p in ps && p != "" ==> p in r
  {
    if ps == [] then []
    else if ps[0] == "" then DropEmpty(ps[1..])
    else [ps[0]] + DropEmpty(ps[1..])
  }

  lemma {:induction false} DropEmptyOfNonEmpty(ps: seq<string>)
    requires forall k :: 0 <= k < |ps| ==> ps[k] != ""
    ensures DropEmpty(ps) == ps
  {
    if ps != [] {
      DropEmptyOfNonEmpty(ps[1..]);
    }
  }

  /** `s.split(/\s+/)`: the pieces between maximal runs of white space. */
  function SplitWhitespace(s: string): (r: seq<string>)
    ensures |r| >= 1
    decreases |s|
  {
    if |s| == 0 then [""]
    else if IsSpace(s[0]) then [""] + SplitWhitespace(TrimStart(s[1..]))
    else
      var rest := SplitWhitespace(s[1..]);
      [[s[0]] + rest[0]] + rest[1..]
  }

  /** Position `k` of `s` begins a maximal run of white space. */
  predicate StartsRun(s: string, k: nat)
    requires k < |s|
  {
    IsSpace(s[k]) && (k == 0 || !IsSpace(s[k - 1]))
  }

  /** The number of positions at or after `i` that begin a run of white space. */
  function RunsFrom(s: string, i: nat): nat
    requires i <= |s|
    decreases |s| - i
  {
    if i == |s| then 0 else (if StartsRun(s, i) then 1 else 0) + RunsFrom(s, i + 1)
  }

  /** The number of maximal runs of white space in `s`. */
  function WhiteSpaceRuns(s: string): nat {
    RunsFrom(s, 0)
  }

  /** Past the first position of a suffix, run starts are counted alike in the suffix and the whole. */
  lemma {:induction false} RunsFromShift(s: string, d: nat, j: nat)
    requires d < j <= |s|
    ensures RunsFrom(s, j) == RunsFrom(s[d..], j - d)
    decreases |s| - j
  {
    if j < |s| {
      assert StartsRun(s, j) == StartsRun(s[d..], j - d);
      RunsFromShift(s, d, j + 1);
    }
  }

  /** The first `d` characters of `s` are white space. */
  predicate LeadingSpaces(s: string, d: nat)
    requires d <= |s|
  {
    forall k :: 0 <= k < d ==> IsSpace(s[k])
  }

  /** Inside a block of white space, no position after the first begins a run. */
  lemma {:induction false} RunsFromSpaces(s: string, i: nat, d: nat)
    requires 1 <= i <= d <= |s| && LeadingSpaces(s, d)
    ensures RunsFrom(s, i) == RunsFrom(s, d)
    decreases d - i
  {
    if i < d {
      assert IsSpace(s[i - 1]);
      assert !StartsRun(s, i);
      RunsFromSpaces(s, i + 1, d);
    }
  }

  /** A leading non-space character begins no run. */
  lemma RunsAfterWordChar(s: string)
    requires |s| > 0 && !IsSpace(s[0])
    ensures WhiteSpaceRuns(s) == WhiteSpaceRuns(s[1..])
  {
    assert !StartsRun(s, 0);
    assert WhiteSpaceRuns(s) == RunsFrom(s, 1);
    if |s| > 1 {
      assert StartsRun(s, 1) == StartsRun(s[1..], 0);
      RunsFromShift(s, 1, 2);
    }
  }

  /** Every character `TrimStart` removes is white space. */
  lemma {:induction false} TrimStartSkipsSpaces(s: string)
    ensures LeadingSpaces(s, |s| - |TrimStart(s)|)
    decreases |s|
  {
    if |s| > 0 && IsSpace(s[0]) {
      TrimStartSkipsSpaces(s[1..]);
      forall k | 0 <= k < |s| - |TrimStart(s)|
        ensures IsSpace(s[k])
      {
        if k > 0 {
          assert s[k] == s[1..][k - 1];
        }
      }
    }
  }

  /** From a position after the first that holds no white space, the runs are those of the suffix. */
  lemma RunsFromWord(s: string, d: nat)
    requires 0 < d < |s| && !IsSpace(s[d])
    ensures RunsFrom(s, d) == WhiteSpaceRuns(s[d..])
  {
    assert !StartsRun(s, d) && !StartsRun(s[d..], 0);
    RunsFromShift(s, d, d + 1);
  }

  /** Leading white space is one run, and the rest starts after it. */
  lemma RunsAfterSpaces(s: string)
    requires |s| > 0 && IsSpace(s[0])
    ensures WhiteSpaceRuns(s) == 1 + WhiteSpaceRuns(TrimStart(s[1..]))
  {
    var t := TrimStart(s[1..]);
    assert TrimStart(s) == t;
    var d := |s| - |t|;
    TrimStartSkipsSpaces(s);
    RunsFromSpaces(s, 1, d);
    assert StartsRun(s, 0);
    if t != [] {
      assert t == s[d..];
      RunsFromWord(s, d);
    }
  }

  /** `s.split(/\s+/)` has one more piece than `s` has runs of white space. */
  lemma {:induction false} SplitWhitespaceCount(s: string)
    ensures |SplitWhitespace(s)| == WhiteSpaceRuns(s) + 1
    decreases |s|
  {
    if |s| > 0 {
      if IsSpace(s[0]) {
        SplitWhitespaceCount(TrimStart(s[1..]));
        RunsAfterSpaces(s);
      } else {
        SplitWhitespaceCount(s[1..]);
        assert |SplitWhitespace(s)| == |SplitWhitespace(s[1..])|;
        RunsAfterWordChar(s);
      }
    }
  }

  /** A string without white space is one piece. */
  lemma {:induction false} SplitWhitespaceOfWord(w: string)
    requires NoSpace(w)
    ensures SplitWhitespace(w) == [w]
  {
    if w != [] {
      SplitWhitespaceOfWord(w[1..]);
      assert [w[0]] + w[1..] == w;
    }
  }

  /** A word, a space and the rest split into the word and the pieces of the rest. */
  lemma {:induction false} SplitWhitespaceCons(w: string, rest: string)
    requires w != [] && NoSpace(w) && (rest == [] || !IsSpace(rest[0]))
    ensures SplitWhitespace(w + " " + rest) == [w] + SplitWhitespace(rest)
  {
    var s := w + " " + rest;
    if |w| == 1 {
      assert s[0] == w[0] && !IsSpace(s[0]);
      assert s[1..] == " " + rest;
      assert (" " + rest)[1..] == rest;
      assert TrimStart(rest) == rest;
      var tail := SplitWhitespace(" " + rest);
      assert tail == [""] + SplitWhitespace(rest);
      assert SplitWhitespace(s) == [[s[0]] + tail[0]] + tail[1..];
      assert [s[0]] + tail[0] == w;
    } else {
      assert s[1..] == w[1..] + " " + rest;
      SplitWhitespaceCons(w[1..], rest);
      assert [w[0]] + w[1..] == w;
    }
  }

  /** Non-empty words joined by single spaces split back into the same words. */
  lemma {:induction false} SplitWhitespaceJoin(ws: seq<string>)
    requires |ws| >= 1
    requires forall k :: 0 <= k < |ws| ==> ws[k] != [] && NoSpace(ws[k])
    ensures SplitWhitespace(Join(ws, " ")) == ws
  {
    if |ws| == 1 {
      SplitWhitespaceOfWord(ws[0]);
    } else {
      var rest := Join(ws[1..], " ");
      JoinHead(ws[1..], " ");
      SplitWhitespaceCons(ws[0], rest);
      SplitWhitespaceJoin(ws[1..]);
    }
  }

  /** A join of pieces starts with its first piece. */
  lemma {:induction false} JoinHead(ps: seq<string>, sep: string)
    requires |ps| >= 1 && ps[0] != []
    ensures Join(ps, sep) != [] && Join(ps, sep)[0] == ps[0][0]
  {
    if |ps| > 1 {
      assert Join(ps, sep) == ps[0] + (sep + Join(ps[1..], sep));
    }
  }
}
