/** The few string operations of Python that the G-code tools rely on:
    `str.strip()`, `startswith`, `endswith`, `in`, `split(" ")` and `" ".join`. */
module Text {

  /** Whitespace as `str.strip()` sees it: Python's `str.isspace` set. */
  predicate IsSpace(c: char) {
    c == ' ' || c == '\t' || c == '\n' || c == '\r' || c == '\U{0B}' || c == '\U{0C}'
    || ('\U{1C}' <= c <= '\U{1F}') || c == '\U{85}' || c == '\U{A0}' || c == '\U{1680}'
    || ('\U{2000}' <= c <= '\U{200A}') || c == '\U{2028}' || c == '\U{2029}' || c == '\U{202F}'
    || c == '\U{205F}' || c == '\U{3000}'
  }

  /** `s.strip()`: whitespace is dropped from both ends, one character at a time. */
  function Strip(s: string): (r: string)
    ensures |r| <= |s|
    ensures r == [] || (!IsSpace(r[0]) && !IsSpace(r[|r| - 1]))
  {
    if s == [] then s
    else if IsSpace(s[0]) then Strip(s[1..])
    else if IsSpace(s[|s| - 1]) then Strip(s[..|s| - 1])
    else s
  }

  /** The number of whitespace characters `s` starts with. */
  function LeadingSpaces(s: string): (k: nat)
    ensures k <= |s|
    ensures forall i :: 0 <= i < k ==> IsSpace(s[i])
  {
    if s != [] && IsSpace(s[0]) then 1 + LeadingSpaces(s[1..]) else 0
  }

  /** `Strip(s)` is the text of `s` between its leading and its trailing whitespace. */
  predicate StripKeeps(s: string) {
    var k, n := LeadingSpaces(s), |Strip(s)|;
    k + n <= |s| && Strip(s) == s[k..k + n] && forall i :: k + n <= i < |s| ==> IsSpace(s[i])
  }

  /** `strip()` keeps the text between the leading and the trailing whitespace as it was. */
  lemma {:induction false} StripSlice(s: string)
    ensures StripKeeps(s)
  {
    if s == [] {
    } else if IsSpace(s[0]) {
      StripSlice(s[1..]);
      StripSliceFront(s);
    } else if IsSpace(s[|s| - 1]) {
      StripSlice(s[..|s| - 1]);
      StripSliceBack(s);
    } else {
      assert s[0..|s|] == s;
    }
  }

  lemma StripSliceFront(s: string)
    requires s != [] && IsSpace(s[0]) && StripKeeps(s[1..])
    ensures StripKeeps(s)
  {
    var k, n := LeadingSpaces(s[1..]), |Strip(s)|;
    assert s[1..][k..k + n] == s[k + 1..k + 1 + n];
    forall i | k + 1 + n <= i < |s| ensures IsSpace(s[i]) {
      assert s[i] == s[1..][i - 1];
    }
  }

  lemma StripSliceBack(s: string)
    requires s != [] && !IsSpace(s[0]) && IsSpace(s[|s| - 1]) && StripKeeps(s[..|s| - 1])
    ensures StripKeeps(s)
  {
    var init := s[..|s| - 1];
    assert |s| >= 2 && init[0] == s[0];
    assert LeadingSpaces(s) == 0 == LeadingSpaces(init);
    var n := |Strip(s)|;
    assert init[0..n] == s[0..n];
    forall i | n <= i < |s| ensures IsSpace(s[i]) {
      if i < |s| - 1 {
        assert s[i] == init[i];
      }
    }
  }

  /** A string with no whitespace at either end is its own `strip()`. */
  lemma StripUnpadded(s: string)
    requires s == [] || (!IsSpace(s[0]) && !IsSpace(s[|s| - 1]))
    ensures Strip(s) == s
  {
  }

  /** Every line stripped, order kept. */
  function StripAll(lines: seq<string>): (r: seq<string>)
    ensures |r| == |lines|
    ensures forall i :: 0 <= i < |r| ==> r[i] == Strip(lines[i])
  {
    if lines == [] then [] else StripAll(lines[..|lines| - 1]) + [Strip(lines[|lines| - 1])]
  }

  /** `strip()` is idempotent. */
  lemma StripIdempotent(s: string)
    ensures Strip(Strip(s)) == Strip(s)
  {
    StripUnpadded(Strip(s));
  }

  predicate StartsWith(s: string, prefix: string) {
    |prefix| <= |s| && s[..|prefix|] == prefix
  }

  predicate EndsWith(s: string, suffix: string) {
    |suffix| <= |s| && s[|s| - |suffix|..] == suffix
  }

  /** Python's `sub in s`: `sub` starts at some position of `s`. */
  predicate Contains(s: string, sub: string) {
    StartsWith(s, sub) || (s != [] && Contains(s[1..], sub))
  }

  /** `sub` occurs in `s` at position `i`. */
  predicate OccursAt(s: string, sub: string, i: int)
    requires 0 <= i <= |s| - |sub|
  {
    s[i..i + |sub|] == sub
  }

  /** `Contains` holds exactly when `sub` occurs somewhere in `s`. */
  lemma {:induction false} ContainsAt(s: string, sub: string)
    ensures Contains(s, sub) <==> exists i :: 0 <= i <= |s| - |sub| && OccursAt(s, sub, i)
  {
    if StartsWith(s, sub) {
      assert OccursAt(s, sub, 0);
    }
    if s != [] {
      ContainsAt(s[1..], sub);
      if Contains(s[1..], sub) {
        var i :| 0 <= i <= |s[1..]| - |sub| && OccursAt(s[1..], sub, i);
        assert s[1..][i..i + |sub|] == s[i + 1..i + 1 + |sub|];
        assert OccursAt(s, sub, i + 1);
      }
      if exists i :: 0 <= i <= |s| - |sub| && OccursAt(s, sub, i) {
        var i :| 0 <= i <= |s| - |sub| && OccursAt(s, sub, i);
        if i > 0 {
          assert s[1..][i - 1..i - 1 + |sub|] == s[i..i + |sub|];
          assert OccursAt(s[1..], sub, i - 1);
        }
      }
    } else {
      if exists i :: 0 <= i <= |s| - |sub| && OccursAt(s, sub, i) {
        var i :| 0 <= i <= |s| - |sub| && OccursAt(s, sub, i);
        assert sub == s[0..0] == [];
        assert StartsWith(s, sub);
      }
    }
  }

  /** An occurrence at a known position is enough for `Contains`. */
  lemma OccursContains(s: string, sub: string, i: int)
    requires 0 <= i <= |s| - |sub| && OccursAt(s, sub, i)
    ensures Contains(s, sub)
  {
    ContainsAt(s, sub);
  }

  /** `s.replace("\n", "")`. */
  function RemoveNewlines(s: string): (r: string)
    ensures |r| <= |s| && '\n' !in r
  {
    if s == [] then []
    else RemoveNewlines(s[..|s| - 1]) + (if s[|s| - 1] == '\n' then [] else [s[|s| - 1]])
  }

  /** `" ".join(tokens)`. */
  function Join(tokens: seq<string>): (r: string)
    ensures |tokens| == 1 ==> r == tokens[0]
  {
    if tokens == [] then ""
    else if |tokens| == 1 then tokens[0]
    else tokens[0] + " " + Join(tokens[1..])
  }

  /** `s.split(" ")`: the pieces between single spaces, empty ones included. */
  function Split(s: string): (r: seq<string>)
    ensures |r| >= 1
    ensures forall k :: 0 <= k < |r| ==> ' ' !in r[k]
  {
    if s == [] then [""]
    else if s[0] == ' ' then [""] + Split(s[1..])
    else
      var rest := Split(s[1..]);
      [[s[0]] + rest[0]] + rest[1..]
  }

  /** The number of pieces is one more than the number of spaces. */
  function SpaceCount(s: string): nat {
    if s == [] then 0 else (if s[0] == ' ' then 1 else 0) + SpaceCount(s[1..])
  }

  lemma {:induction false} SplitCount(s: string)
    ensures |Split(s)| == SpaceCount(s) + 1
  {
    if s != [] {
      SplitCount(s[1..]);
    }
  }

  lemma {:induction false} JoinConsHead(t: string, ts: seq<string>)
    requires |ts| >= 1
    ensures Join([t] + ts) == t + " " + Join(ts)
  {
    assert ([t] + ts)[1..] == ts;
  }

  /** Joining the pieces of `s` with single spaces gives `s` back. */
  lemma {:induction false} JoinSplit(s: string)
    ensures Join(Split(s)) == s
  {
    if s == [] {
    } else if s[0] == ' ' {
      JoinSplit(s[1..]);
      JoinConsHead("", Split(s[1..]));
      assert s == " " + s[1..];
    } else {
      JoinSplit(s[1..]);
      JoinPrepend(s[0], Split(s[1..]));
      assert s == [s[0]] + s[1..];
    }
  }

  /** Gluing a character to the front of the first piece glues it to the front of the join. */
  lemma JoinPrepend(c: char, ts: seq<string>)
    requires |ts| >= 1
    ensures Join([[c] + ts[0]] + ts[1..]) == [c] + Join(ts)
  {
    if |ts| == 1 {
      assert [[c] + ts[0]] + ts[1..] == [[c] + ts[0]];
    } else {
      JoinPrependMore(c, ts[0], ts[1..]);
      assert ts == [ts[0]] + ts[1..];
    }
  }

  lemma JoinPrependMore(c: char, t: string, rest: seq<string>)
    requires |rest| >= 1
    ensures Join([[c] + t] + rest) == [c] + Join([t] + rest)
  {
    JoinConsHead([c] + t, rest);
    JoinConsHead(t, rest);
    SeqAssoc([c], t, " " + Join(rest));
  }

  lemma SeqAssoc(a: string, b: string, c: string)
    ensures a + b + c == a + (b + c)
  {
  }

  /** Splitting a join of space-free pieces gives the pieces back. */
  lemma {:induction false} SplitJoin(tokens: seq<string>)
    requires |tokens| >= 1
    requires forall k :: 0 <= k < |tokens| ==> ' ' !in tokens[k]
    ensures Split(Join(tokens)) == tokens
  {
    if |tokens| == 1 {
      SplitNoSpace(tokens[0]);
    } else {
      SplitJoin(tokens[1..]);
      JoinConsHead(tokens[0], tokens[1..]);
      SplitWord(tokens[0], Join(tokens[1..]));
      assert tokens == [tokens[0]] + tokens[1..];
    }
  }

  lemma {:induction false} SplitNoSpace(w: string)
    requires ' ' !in w
    ensures Split(w) == [w]
  {
    if w != [] {
      SplitNoSpace(w[1..]);
      assert w == [w[0]] + w[1..];
    }
  }

  lemma {:induction false} SplitWord(w: string, rest: string)
    requires ' ' !in w
    ensures Split(w + " " + rest) == [w] + Split(rest)
  {
    if w == [] {
      assert w + " " + rest == " " + rest;
      assert (" " + rest)[1..] == rest;
    } else {
      var s := w + " " + rest;
      assert s[0] == w[0];
      assert s[1..] == w[1..] + " " + rest;
      SplitWord(w[1..], rest);
      assert w == [w[0]] + w[1..];
    }
  }
}
