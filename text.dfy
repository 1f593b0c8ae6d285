/**
 * The string handling around the git queries: `str::trim`, the
 * trim-and-drop-empty post-processing of `run_git`, `str::split_whitespace`
 * and the base name of a path.
 */
module Text {

  /**
   * Rust's `char::is_whitespace`: the Unicode White_Space property. Space,
   * tab and the line-ending controls qualify; no visible ASCII character,
   * such as those of a commit hash or an RFC 3339 date, does.
   */
  predicate IsWhitespace(c: char): (b: bool)
    ensures c == ' ' || c == '\t' || c == '\n' || c == '\r' ==> b
    ensures '!' <= c <= '~' ==> !b
  {
    ('\U{9}' <= c <= '\U{D}') || c == ' ' || c == '\U{85}' || c == '\U{A0}' || c == '\U{1680}'
    || ('\U{2000}' <= c <= '\U{200A}') || c == '\U{2028}' || c == '\U{2029}'
    || c == '\U{202F}' || c == '\U{205F}' || c == '\U{3000}'
  }

  predicate NoWhitespace(s: string) {
    forall k :: 0 <= k < |s| ==> !IsWhitespace(s[k])
  }

  /** Neither end of `s` is whitespace (the empty string qualifies). */
  predicate IsTrimmed(s: string) {
    s == [] || (!IsWhitespace(s[0]) && !IsWhitespace(s[|s| - 1]))
  }

  /** A non-empty run of non-whitespace characters, as `split_whitespace` yields. */
  predicate IsToken(s: string) {
    s != [] && NoWhitespace(s)
  }

  /** Everything in `s` before index `i` is whitespace. */
  ghost predicate SpaceBefore(s: string, i: int) {
    forall k :: 0 <= k < |s| && k < i ==> IsWhitespace(s[k])
  }

  /** Everything in `s` from index `j` on is whitespace. */
  ghost predicate SpaceFrom(s: string, j: int) {
    forall k :: 0 <= k < |s| && j <= k ==> IsWhitespace(s[k])
  }

  /** `r` is `s` with some whitespace removed from its front and its back. */
  ghost predicate StripsTo(s: string, r: string) {
    exists i, j :: 0 <= i <= j <= |s| && r == s[i..j] && SpaceBefore(s, i) && SpaceFrom(s, j)
  }

  /** The length of the whitespace run that starts `s` (`str::trim_start` drops it). */
  function LeadingSpace(s: string): (n: nat)
    ensures n <= |s| && SpaceBefore(s, n)
    ensures n < |s| ==> !IsWhitespace(s[n])
  {
    if s == [] || !IsWhitespace(s[0]) then 0 else 1 + LeadingSpace(s[1..])
  }

  /** Where the whitespace run that ends `s` starts (`str::trim_end` drops it). */
  function TrailingSpace(s: string): (n: nat)
    ensures n <= |s| && SpaceFrom(s, n)
    ensures 0 < n ==> !IsWhitespace(s[n - 1])
  {
    if s == [] || !IsWhitespace(s[|s| - 1]) then |s| else TrailingSpace(s[..|s| - 1])
  }

  /**
   * `str::trim`: strips whitespace at both ends, and the result has none at
   * either end. A string of whitespace trims to nothing.
   */
  function Trim(s: string): (r: string)
    ensures IsTrimmed(r)
    ensures StripsTo(s, r)
  {
    var i := LeadingSpace(s);
    if i == |s| then
      assert s[i..i] == [];
      []
    else
      var j := TrailingSpace(s);
      assert IsWhitespace(s[i]) == false;
      s[i..j]
  }

  /** A whitespace run followed by another character, or by nothing, is what `LeadingSpace` measures. */
  lemma LeadingSpaceAt(s: string, i: nat)
    requires i <= |s| && SpaceBefore(s, i)
    requires i < |s| ==> !IsWhitespace(s[i])
    ensures LeadingSpace(s) == i
  {
  }

  /** A whitespace run preceded by another character, or by nothing, is what `TrailingSpace` finds. */
  lemma TrailingSpaceAt(s: string, j: nat)
    requires j <= |s| && SpaceFrom(s, j)
    requires 0 < j ==> !IsWhitespace(s[j - 1])
    ensures TrailingSpace(s) == j
  {
  }

  /**
   * `Trim` is the only way to strip whitespace from both ends so that none
   * remains at either end: an independent definition of `str::trim`.
   */
  lemma TrimUnique(s: string, r: string)
    requires StripsTo(s, r) && IsTrimmed(r)
    ensures r == Trim(s)
  {
    var i, j :| 0 <= i <= j <= |s| && r == s[i..j] && SpaceBefore(s, i) && SpaceFrom(s, j);
    if r == [] {
      assert SpaceBefore(s, |s|) by {
        forall k | 0 <= k < |s| ensures IsWhitespace(s[k]) {
          if k >= i { assert j <= k; }
        }
      }
      LeadingSpaceAt(s, |s|);
    } else {
      assert s[i] == r[0] && s[j - 1] == r[|r| - 1];
      LeadingSpaceAt(s, i);
      TrailingSpaceAt(s, j);
    }
  }

  /** Trimming a string that is already trimmed changes nothing. */
  lemma TrimTrimmed(s: string)
    requires IsTrimmed(s)
    ensures Trim(s) == s
  {
    assert s[0..|s|] == s;
    TrimUnique(s, s);
  }

  /**
   * The line post-processing of `run_git`: every line is trimmed and the
   * lines left empty are dropped.
   */
  function Normalise(lines: seq<string>): (r: seq<string>)
    ensures |r| <= |lines|
    ensures forall k :: 0 <= k < |r| ==> r[k] != [] && IsTrimmed(r[k])
  {
    if lines == [] then []
    else
      var t := Trim(lines[0]);
      (if t == [] then [] else [t]) + Normalise(lines[1..])
  }

  /** Normalisation works line by line, so it keeps the lines' relative order. */
  lemma {:induction false} NormaliseAppend(a: seq<string>, b: seq<string>)
    ensures Normalise(a + b) == Normalise(a) + Normalise(b)
  {
    if a == [] {
      assert a + b == b;
    } else {
      var t := Trim(a[0]);
      var head := if t == [] then [] else [t];
      assert (a + b)[0] == a[0] && (a + b)[1..] == a[1..] + b;
      assert Normalise(a + b) == head + Normalise(a[1..] + b);
      NormaliseAppend(a[1..], b);
    }
  }

  /** A line is in the output exactly when it is the non-empty trim of some input line. */
  lemma {:induction false} NormaliseMembers(lines: seq<string>, x: string)
    ensures x in Normalise(lines) <==> x != [] && exists k :: 0 <= k < |lines| && Trim(lines[k]) == x
  {
    if lines != [] {
      var t := Trim(lines[0]);
      var head := if t == [] then [] else [t];
      var tail := lines[1..];
      assert Normalise(lines) == head + Normalise(tail);
      NormaliseMembers(tail, x);
      if x in Normalise(lines) {
        if x in head {
          assert Trim(lines[0]) == x;
        } else {
          var k :| 0 <= k < |tail| && Trim(tail[k]) == x;
          assert Trim(lines[k + 1]) == x;
        }
      }
      if x != [] && exists k :: 0 <= k < |lines| && Trim(lines[k]) == x {
        var k :| 0 <= k < |lines| && Trim(lines[k]) == x;
        if k == 0 {
          assert x in head;
        } else {
          assert Trim(tail[k - 1]) == x;
        }
      }
    }
  }

  /** Normalising the output of a normalisation gives it back unchanged. */
  lemma {:induction false} NormaliseIdempotent(lines: seq<string>)
    ensures Normalise(Normalise(lines)) == Normalise(lines)
  {
    if lines != [] {
      var t := Trim(lines[0]);
      var head := if t == [] then [] else [t];
      NormaliseAppend(head, Normalise(lines[1..]));
      NormaliseIdempotent(lines[1..]);
      if t != [] {
        TrimTrimmed(t);
        assert Normalise(head) == [t] + Normalise([]);
      }
    }
  }

  /** Normalisation leaves nothing exactly when every line is blank. */
  lemma {:induction false} NormaliseEmpty(lines: seq<string>)
    ensures Normalise(lines) == [] <==> forall k :: 0 <= k < |lines| ==> Trim(lines[k]) == []
  {
    if lines != [] {
      var tail := lines[1..];
      if Trim(lines[0]) == [] {
        assert Normalise(lines) == Normalise(tail);
        BlankLinesTail(lines);
        NormaliseEmpty(tail);
      } else {
        assert Normalise(lines) != [] by {
          assert Normalise(lines) == [Trim(lines[0])] + Normalise(tail);
        }
      }
    }
  }

  /** When the first line trims to nothing, every line does exactly when every later line does. */
  lemma BlankLinesTail(lines: seq<string>)
    requires lines != [] && Trim(lines[0]) == []
    ensures (forall k :: 0 <= k < |lines| ==> Trim(lines[k]) == [])
        <==> (forall k :: 0 <= k < |lines| - 1 ==> Trim(lines[1..][k]) == [])
  {
    assert forall k :: 0 <= k < |lines| - 1 ==> lines[1..][k] == lines[k + 1];
  }



  /** Length of the run of non-whitespace characters that starts `s`. */
  function TokenEnd(s: string): (k: nat)
    ensures k <= |s| && NoWhitespace(s[..k])
    ensures k < |s| ==> IsWhitespace(s[k])
  {
    if s == [] || IsWhitespace(s[0]) then 0
    else
      var k := 1 + TokenEnd(s[1..]);
      assert s[..k] == [s[0]] + s[1..][..k - 1];
      k
  }

  /** `str::split_whitespace`: the maximal non-whitespace runs of `s`, in order. */
  function SplitWhitespace(s: string): (r: seq<string>)
    ensures forall k :: 0 <= k < |r| ==> IsToken(r[k])
    decreases |s|
  {
    var t := s[LeadingSpace(s)..];
    if t == [] then []
    else
      var k := TokenEnd(t);
      [t[..k]] + SplitWhitespace(t[k..])
  }

  /** Tokens joined by single spaces, as `git log --format="%H %aI"` writes a line. */
  function Unwords(tokens: seq<string>): string {
    if |tokens| == 0 then ""
    else if |tokens| == 1 then tokens[0]
    else tokens[0] + " " + Unwords(tokens[1..])
  }

  lemma {:induction false} TokenEndOfToken(t: string, rest: string)
    requires NoWhitespace(t)
    requires rest == [] || IsWhitespace(rest[0])
    ensures TokenEnd(t + rest) == |t|
  {
    if t != [] {
      assert (t + rest)[1..] == t[1..] + rest;
      TokenEndOfToken(t[1..], rest);
    } else {
      assert t + rest == rest;
    }
  }

  /** Nothing but whitespace (the empty string qualifies). */
  predicate IsBlank(s: string) {
    forall k :: 0 <= k < |s| ==> IsWhitespace(s[k])
  }

  /** Whitespace in front of a string, of any kind and length, does not change how it splits. */
  lemma SplitSkipsSpace(w: string, u: string)
    requires IsBlank(w)
    ensures SplitWhitespace(w + u) == SplitWhitespace(u)
  {
    var s := w + u;
    var n := LeadingSpace(u);
    assert SpaceBefore(s, |w| + n) by {
      forall k | 0 <= k < |w| + n
        ensures IsWhitespace(s[k])
      {
        if k < |w| {
          assert s[k] == w[k];
        } else {
          assert s[k] == u[k - |w|];
        }
      }
    }
    assert |w| + n < |s| ==> s[|w| + n] == u[n];
    LeadingSpaceAt(s, |w| + n);
    assert s[|w| + n..] == u[n..];
  }

  /** A string of whitespace only splits into no tokens at all. */
  lemma SplitBlank(w: string)
    requires IsBlank(w)
    ensures SplitWhitespace(w) == []
  {
    LeadingSpaceAt(w, |w|);
  }

  /** A token followed by whitespace (or nothing) is split off as one piece. */
  lemma SplitLeadingToken(t: string, rest: string)
    requires IsToken(t)
    requires rest == [] || IsWhitespace(rest[0])
    ensures SplitWhitespace(t + rest) == [t] + SplitWhitespace(rest)
  {
    var s := t + rest;
    TokenEndOfToken(t, rest);
    assert s[0] == t[0];
    assert LeadingSpace(s) == 0;
    assert s[..|t|] == t;
    assert s[|t|..] == rest;
  }

  /** A single token splits into itself. */
  lemma SplitToken(t: string)
    requires IsToken(t)
    ensures SplitWhitespace(t) == [t]
  {
    TokenEndOfToken(t, []);
    assert t + [] == t;
    assert LeadingSpace(t) == 0;
    assert t[..|t|] == t;
    assert t[|t|..] == [];
  }

  /** Splitting a space-joined line takes its first token off the front. */
  lemma SplitUnwordsStep(tokens: seq<string>)
    requires |tokens| > 1 && IsToken(tokens[0])
    ensures SplitWhitespace(Unwords(tokens)) == [tokens[0]] + SplitWhitespace(Unwords(tokens[1..]))
  {
    var t, u := tokens[0], Unwords(tokens[1..]);
    assert Unwords(tokens) == t + (" " + u);
    SplitLeadingToken(t, " " + u);
    SplitSkipsSpace(" ", u);
  }

  /** Splitting on whitespace recovers the tokens that were joined by spaces. */
  lemma {:induction false} SplitUnwords(tokens: seq<string>)
    requires forall k :: 0 <= k < |tokens| ==> IsToken(tokens[k])
    ensures SplitWhitespace(Unwords(tokens)) == tokens
  {
    if |tokens| == 1 {
      SplitToken(tokens[0]);
    } else if |tokens| > 1 {
      SplitUnwordsStep(tokens);
      var rest := tokens[1..];
      assert forall k :: 0 <= k < |rest| ==> IsToken(rest[k]) by {
        forall k | 0 <= k < |rest| ensures IsToken(rest[k]) {
          assert rest[k] == tokens[k + 1];
        }
      }
      assert SplitWhitespace(Unwords(rest)) == rest by {
        SplitUnwords(rest);
      }
    }
  }

  /**
   * Tokens laid out between whitespace gaps: `gaps[0] + tokens[0] + gaps[1] + ...
   * + tokens[n - 1] + gaps[n]`.
   */
  function Spaced(gaps: seq<string>, tokens: seq<string>): string
    requires |gaps| == |tokens| + 1
  {
    if tokens == [] then gaps[0] else gaps[0] + tokens[0] + Spaced(gaps[1..], tokens[1..])
  }

  /** Text laid out from a blank gap, non-empty when a token follows, starts with whitespace or is empty. */
  lemma SpacedStart(gaps: seq<string>, tokens: seq<string>)
    requires |gaps| == |tokens| + 1 && IsBlank(gaps[0])
    requires tokens != [] ==> gaps[0] != []
    ensures Spaced(gaps, tokens) == [] || IsWhitespace(Spaced(gaps, tokens)[0])
  {
    if tokens != [] {
      assert Spaced(gaps, tokens)[0] == gaps[0][0];
    }
  }

  /** A gap and a token at the front of spaced-out text split off as that token. */
  lemma SplitSpacedStep(gaps: seq<string>, tokens: seq<string>)
    requires |gaps| == |tokens| + 1 && tokens != []
    requires IsBlank(gaps[0]) && IsBlank(gaps[1]) && IsToken(tokens[0])
    requires |tokens| > 1 ==> gaps[1] != []
    ensures SplitWhitespace(Spaced(gaps, tokens)) == [tokens[0]] + SplitWhitespace(Spaced(gaps[1..], tokens[1..]))
  {
    var rest := Spaced(gaps[1..], tokens[1..]);
    SpacedStart(gaps[1..], tokens[1..]);
    assert Spaced(gaps, tokens) == gaps[0] + (tokens[0] + rest);
    SplitSkipsSpace(gaps[0], tokens[0] + rest);
    SplitLeadingToken(tokens[0], rest);
  }

  /**
   * Splitting on whitespace recovers the tokens whatever whitespace separates
   * them: any run of any whitespace between two tokens, and any (possibly
   * empty) run before the first and after the last.
   */
  lemma {:induction false} SplitSpaced(gaps: seq<string>, tokens: seq<string>)
    requires |gaps| == |tokens| + 1
    requires forall k :: 0 <= k < |gaps| ==> IsBlank(gaps[k])
    requires forall k :: 0 < k < |tokens| ==> gaps[k] != []
    requires forall k :: 0 <= k < |tokens| ==> IsToken(tokens[k])
    ensures SplitWhitespace(Spaced(gaps, tokens)) == tokens
  {
    if tokens == [] {
      SplitBlank(gaps[0]);
    } else {
      var g, ts := gaps[1..], tokens[1..];
      SplitSpacedStep(gaps, tokens);
      assert SplitWhitespace(Spaced(g, ts)) == ts by {
        assert forall k :: 0 <= k < |g| ==> g[k] == gaps[k + 1];
        assert forall k :: 0 <= k < |ts| ==> ts[k] == tokens[k + 1];
        SplitSpaced(g, ts);
      }
    }
  }

  /** Example: a run of tabs and spaces separates two tokens. */
  lemma SplitMixedSpace()
    ensures SplitWhitespace("a\t b") == ["a", "b"]
  {
    var gaps := ["", "\t ", ""];
    var tokens := ["a", "b"];
    assert Spaced(gaps, tokens) == "a\t b";
    SplitSpaced(gaps, tokens);
  }

  /** Where the last `/`-separated segment of `p` starts: just past the last `/`, or 0. */
  function NameStart(p: string): (i: nat)
    ensures i <= |p|
    ensures 0 < i ==> p[i - 1] == '/'
    ensures forall k :: i <= k < |p| ==> p[k] != '/'
  {
    if p == [] || p[|p| - 1] == '/' then |p| else NameStart(p[..|p| - 1])
  }

  /**
   * The file name of a path: its last `/`-separated segment. For the
   * relative file paths git prints (no trailing `/`) this is what
   * `Path::file_name` yields.
   */
  function BaseName(p: string): string {
    p[NameStart(p)..]
  }

  /** The file name is a suffix of the path with no `/` in it, preceded by a `/` unless it is the whole path. */
  lemma BaseNameSegment(p: string)
    ensures '/' !in BaseName(p)
    ensures |BaseName(p)| <= |p| && BaseName(p) == p[|p| - |BaseName(p)|..]
    ensures |BaseName(p)| < |p| ==> p[|p| - |BaseName(p)| - 1] == '/'
  {
    var i := NameStart(p);
    assert forall k :: 0 <= k < |p| - i ==> p[i..][k] == p[i + k];
  }

  /** The file name of `dir/name` is `name`. */
  lemma BaseNameOfJoin(dir: string, name: string)
    requires '/' !in name
    ensures BaseName(dir + "/" + name) == name
  {
    var p := dir + "/" + name;
    var i := NameStart(p);
    assert p[|dir|] == '/';
    assert forall k :: |dir| < k < |p| ==> p[k] == name[k - |dir| - 1];
    assert i == |dir| + 1;
    assert p[i..] == name;
  }
}
