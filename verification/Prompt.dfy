/** Removing forged prompt delimiters from untrusted text. */
module Prompt {
  import opened Wrappers
  import opened Text

  /** The tags that frame prompts, and what replaces a forged one. */
  datatype Framing = Framing(names: seq<Text>, mark: Text)

  const LESS: CodePoint := 60
  const GREATER: CodePoint := 62
  const SLASH: CodePoint := 47
  const BRACKET: CodePoint := 91

  /** Letters compare without case, with the extra forms Unicode gives `i`, `s` and `k`. */
  predicate SameLetter(c: CodePoint, l: CodePoint) {
    || c == l || (97 <= l <= 122 && c == l - 32) || (l == 105 && (c == 0x130 || c == 0x131)) || (l == 115 && c == 0x17F)
    || (l == 107 && c == 0x212A)
  }

  predicate Spells(s: Text, tag: Text) {
    |s| == |tag| && forall i | 0 <= i < |tag| :: SameLetter(s[i], tag[i])
  }

  predicate AllSpace(s: Text) { forall c <- s :: IsSpace(c) }

  /** The expression read as a grammar: `<`, space, an optional slash, space, a tag, anything but `>`, and `>`. */
  ghost predicate Delimiter(x: Framing, m: Text) {
    exists before, slash, after, tag, body :: SplitsInto(x, m, before, slash, after, tag, body)
  }

  ghost predicate SplitsInto(x: Framing, m: Text, before: Text, slash: Text, after: Text, tag: Text, body: Text) {
    && m == [LESS] + before + slash + after + tag + body + [GREATER]
    && AllSpace(before) && (slash == [] || slash == [SLASH]) && AllSpace(after) && GREATER !in body
    && exists name <- x.names :: Spells(tag, name)
  }

  // ---------------------------------------------------------------- the scanner

  function Spaces(s: Text): (n: nat)
    ensures n <= |s| && AllSpace(s[..n]) && (n < |s| ==> !IsSpace(s[n]))
  {
    if s == [] || !IsSpace(s[0]) then 0
    else
      var n := Spaces(s[1..]) + 1;
      assert s[..n] == [s[0]] + s[1..][..n - 1];
      n
  }

  function FirstClose(s: Text): (k: nat)
    ensures k <= |s| && GREATER !in s[..k] && (k < |s| ==> s[k] == GREATER)
  {
    IndexOf(s, GREATER)
  }

  predicate TagHere(x: Framing, s: Text) { exists name <- x.names :: |name| <= |s| && Spells(s[..|name|], name) }

  /** Where the tag of a delimiter at the start of the text would have to begin. */
  function TagStart(s: Text): (c: nat)
    requires s != []
    ensures c <= |s|
  {
    var a := 1 + Spaces(s[1..]);
    var b := if a < |s| && s[a] == SLASH then a + 1 else a;
    b + Spaces(s[b..])
  }

  /** Where the first `>` after a tag at the start of the text is. */
  function TagClose(x: Framing, s: Text): (k: Option<nat>)
    ensures k.Some? ==> k.value < |s|
  {
    if TagHere(x, s) && FirstClose(s) < |s| then Some(FirstClose(s)) else None
  }

  /** The length of a delimiter at the start of the text. */
  function MatchAt(x: Framing, s: Text): (m: Option<nat>)
    ensures m.Some? ==> 0 < m.value <= |s|
  {
    if s == [] || s[0] != LESS then None
    else
      var c := TagStart(s);
      var k := TagClose(x, s[c..]);
      if k.Some? then Some(c + k.value + 1) else None
  }

  function Neutralize(x: Framing, s: Text): Text
    decreases |s|
  {
    if s == [] then []
    else
      match MatchAt(x, s)
      case Some(e) => x.mark + Neutralize(x, s[e..])
      case None => [s[0]] + Neutralize(x, s[1..])
  }

  // ---------------------------------------------------------------- the scanner finds exactly the delimiters

  predicate Plain(name: Text) { name != [] && forall c <- name :: 97 <= c <= 122 || c == 95 }

  /** Tags of small letters and underscores; the mark opens with a bracket and has no angle of its own. */
  predicate Usable(x: Framing) {
    && (forall name <- x.names :: Plain(name))
    && x.mark != [] && x.mark[0] == BRACKET && LESS !in x.mark && GREATER !in x.mark
  }

  /** Neither a bracket nor an angle: what may stand between `<` and the end of a tag. */
  predicate Inner(c: CodePoint) { c != LESS && c != GREATER && c != BRACKET }

  lemma LettersArePlain(c: CodePoint, l: CodePoint)
    requires SameLetter(c, l) && (97 <= l <= 122 || l == 95)
    ensures Inner(c) && !IsSpace(c) && c != SLASH
  {
  }

  lemma TagLetters(x: Framing, tag: Text)
    requires Usable(x) && exists name <- x.names :: Spells(tag, name)
    ensures tag != [] && forall c <- tag :: Inner(c) && !IsSpace(c) && c != SLASH
  {
    var name :| name in x.names && Spells(tag, name);
    assert Plain(name);
    hide IsSpace, Inner, SameLetter;
    forall i | 0 <= i < |tag| ensures Inner(tag[i]) && !IsSpace(tag[i]) && tag[i] != SLASH {
      assert name[i] in name;
      LettersArePlain(tag[i], name[i]);
    }
  }

  lemma {:induction false} SpacesOf(space: Text, rest: Text)
    requires AllSpace(space) && (rest == [] || !IsSpace(rest[0]))
    ensures Spaces(space + rest) == |space|
  {
    hide IsSpace;
    if space == [] {
      assert space + rest == rest;
    } else {
      assert space[0] in space && forall c <- space[1..] :: c in space;
      SpacesOf(space[1..], rest);
      assert (space + rest)[1..] == space[1..] + rest;
    }
  }

  lemma TagStartWithoutSlash(space: Text, rest: Text)
    requires AllSpace(space) && rest != [] && !IsSpace(rest[0]) && rest[0] != SLASH
    ensures TagStart([LESS] + space + rest) == 1 + |space|
  {
    hide IsSpace;
    var s := [LESS] + space + rest;
    assert s[1..] == space + rest;
    SpacesOf(space, rest);
    assert s[1 + |space|..] == [] + rest;
    SpacesOf([], rest);
  }

  lemma TagStartWithSlash(before: Text, after: Text, rest: Text)
    requires AllSpace(before) && AllSpace(after) && rest != [] && !IsSpace(rest[0])
    ensures TagStart([LESS] + before + [SLASH] + after + rest) == 2 + |before| + |after|
  {
    assert !IsSpace(SLASH);
    hide IsSpace;
    var s, tail := [LESS] + before + [SLASH] + after + rest, [SLASH] + after + rest;
    assert s[1..] == before + tail;
    SpacesOf(before, tail);
    assert s[1 + |before|] == SLASH && s[2 + |before|..] == after + rest;
    SpacesOf(after, rest);
  }

  /** Where the grammar puts the tag is where the scanner looks for it. */
  lemma TagStartOf(before: Text, slash: Text, after: Text, rest: Text)
    requires AllSpace(before) && (slash == [] || slash == [SLASH]) && AllSpace(after)
    requires rest != [] && !IsSpace(rest[0]) && rest[0] != SLASH
    ensures TagStart([LESS] + before + slash + after + rest) == 1 + |before| + |slash| + |after|
  {
    hide IsSpace, TagStart;
    if slash == [] {
      TagStartWithoutSlash(before + after, rest);
      assert [LESS] + before + slash + after + rest == [LESS] + (before + after) + rest;
    } else {
      TagStartWithSlash(before, after, rest);
    }
  }

  lemma FirstCloseOf(body: Text, rest: Text)
    requires GREATER !in body
    ensures FirstClose(body + [GREATER] + rest) == |body|
  {
    var s, k := body + [GREATER] + rest, FirstClose(body + [GREATER] + rest);
    assert s[|body|] == GREATER;
    assert forall j | 0 <= j < |body| :: s[j] == body[j] && body[j] in body;
    assert forall j | 0 <= j < k :: s[j] == s[..k][j] && s[..k][j] in s[..k];
  }

  lemma TagHereOf(x: Framing, tag: Text, rest: Text)
    requires exists name <- x.names :: Spells(tag, name)
    ensures TagHere(x, tag + rest)
  {
    var name :| name in x.names && Spells(tag, name);
    assert (tag + rest)[..|name|] == tag;
  }

  lemma TagCloseOf(x: Framing, tag: Text, body: Text, rest: Text)
    requires Usable(x) && (exists name <- x.names :: Spells(tag, name)) && GREATER !in body
    ensures TagClose(x, tag + body + [GREATER] + rest) == Some(|tag| + |body|)
  {
    TagLetters(x, tag);
    TagHereOf(x, tag, body + [GREATER] + rest);
    hide TagHere, Spells;
    assert tag + body + [GREATER] + rest == tag + (body + [GREATER] + rest);
    assert GREATER !in tag + body;
    FirstCloseOf(tag + body, rest);
  }

  lemma MatchOfParts(x: Framing, front: Text, tag: Text, body: Text, rest: Text)
    requires front != [] && front[0] == LESS
    requires var tail := tag + body + [GREATER] + rest;
             TagStart(front + tail) == |front| && TagClose(x, tail) == Some(|tag| + |body|)
    ensures MatchAt(x, front + tag + body + [GREATER] + rest) == Some(|front| + |tag| + |body| + 1)
  {
    Regroup(front, tag, body, rest);
    hide TagStart, TagClose;
  }

  /** A delimiter of the grammar is found by the scanner, whatever follows it. */
  lemma DelimitersAreFound(x: Framing, m: Text, rest: Text)
    requires Usable(x) && Delimiter(x, m)
    ensures MatchAt(x, m + rest) == Some(|m|)
  {
    hide SplitsInto, MatchAt, Usable;
    var before, slash, after, tag, body :| SplitsInto(x, m, before, slash, after, tag, body);
    SplitIsFound(x, m, before, slash, after, tag, body, rest);
  }

  lemma SplitIsFound(x: Framing, m: Text, before: Text, slash: Text, after: Text, tag: Text, body: Text, rest: Text)
    requires Usable(x) && SplitsInto(x, m, before, slash, after, tag, body)
    ensures MatchAt(x, m + rest) == Some(|m|)
  {
    hide MatchAt, Usable, AllSpace, Spells;
    PartsAreFound(x, before, slash, after, tag, body, rest);
  }

  lemma TagStartBeforeTag(x: Framing, before: Text, slash: Text, after: Text, tag: Text, body: Text, rest: Text)
    requires Usable(x) && AllSpace(before) && (slash == [] || slash == [SLASH]) && AllSpace(after)
    requires exists name <- x.names :: Spells(tag, name)
    ensures TagStart([LESS] + before + slash + after + (tag + body + [GREATER] + rest)) == |[LESS] + before + slash + after|
  {
    TagLetters(x, tag);
    assert tag[0] in tag;
    hide Usable, TagStart, AllSpace, IsSpace, Spells;
    TagStartOf(before, slash, after, tag + body + [GREATER] + rest);
  }

  lemma PartsAreFound(x: Framing, before: Text, slash: Text, after: Text, tag: Text, body: Text, rest: Text)
    requires Usable(x) && AllSpace(before) && (slash == [] || slash == [SLASH]) && AllSpace(after)
    requires (exists name <- x.names :: Spells(tag, name)) && GREATER !in body
    ensures MatchAt(x, [LESS] + before + slash + after + tag + body + [GREATER] + rest)
         == Some(|[LESS] + before + slash + after| + |tag| + |body| + 1)
  {
    hide *;
    TagStartBeforeTag(x, before, slash, after, tag, body, rest);
    TagCloseOf(x, tag, body, rest);
    MatchOfParts(x, [LESS] + before + slash + after, tag, body, rest);
  }

  lemma Regroup(front: Text, tag: Text, body: Text, rest: Text)
    ensures front + tag + body + [GREATER] + rest == front + (tag + body + [GREATER] + rest)
    ensures (front + tag + body + [GREATER] + rest)[|front|..] == tag + body + [GREATER] + rest
  {
  }

  lemma TagCloseSplits(x: Framing, s: Text) returns (name: Text, tag: Text, body: Text)
    requires Usable(x) && TagClose(x, s).Some?
    ensures name in x.names && Spells(tag, name) && GREATER !in body
    ensures s[..TagClose(x, s).value] == tag + body && s[TagClose(x, s).value] == GREATER
  {
    var k := FirstClose(s);
    name :| name in x.names && |name| <= |s| && Spells(s[..|name|], name);
    tag := s[..|name|];
    TagLetters(x, tag);
    hide Spells, IsSpace;
    assert forall i | 0 <= i < |name| :: s[i] == tag[i] && tag[i] in tag;
    body := s[|name|..k];
    assert forall c <- body :: c in s[..k];
  }

  lemma TagStartSplits(s: Text) returns (a: nat, b: nat)
    requires s != []
    ensures 1 <= a <= b <= TagStart(s) <= |s| && AllSpace(s[1..a]) && AllSpace(s[b..TagStart(s)])
    ensures b == a || (b == a + 1 && s[a] == SLASH)
  {
    hide IsSpace, AllSpace;
    a := 1 + Spaces(s[1..]);
    b := if a < |s| && s[a] == SLASH then a + 1 else a;
    assert s[1..a] == s[1..][..a - 1];
    assert s[b..TagStart(s)] == s[b..][..TagStart(s) - b];
  }

  /** What the scanner finds is a delimiter of the grammar. */
  lemma FoundAreDelimiters(x: Framing, s: Text)
    requires Usable(x) && MatchAt(x, s).Some?
    ensures Delimiter(x, s[..MatchAt(x, s).value])
  {
    var a, b := TagStartSplits(s);
    var c := TagStart(s);
    var k := TagClose(x, s[c..]).value;
    var name, tag, body := TagCloseSplits(x, s[c..]);
    hide Spells, AllSpace, TagStart, TagClose, Delimiter;
    assert s[c..][..k] == s[c..c + k];
    SplitAt(x, s, a, b, c, k, name, tag, body);
  }

  lemma SplitAt(x: Framing, s: Text, a: nat, b: nat, c: nat, k: nat, name: Text, tag: Text, body: Text)
    requires s != [] && s[0] == LESS && 1 <= a <= b <= c <= c + k < |s|
    requires AllSpace(s[1..a]) && (b == a || (b == a + 1 && s[a] == SLASH)) && AllSpace(s[b..c])
    requires s[c..c + k] == tag + body && GREATER !in body && s[c + k] == GREATER
    requires name in x.names && Spells(tag, name)
    ensures Delimiter(x, s[..c + k + 1])
  {
    hide Spells, AllSpace;
    var m := s[..c + k + 1];
    var front := [LESS] + s[1..a] + s[a..b] + s[b..c];
    assert s[..c] == front by { assert s[..a] == [LESS] + s[1..a]; assert s[..b] == s[..a] + s[a..b]; }
    assert m == front + (tag + body) + [GREATER];
    assert front + (tag + body) == front + tag + body;
    assert s[a..b] == [] || s[a..b] == [SLASH];
    assert SplitsInto(x, m, s[1..a], s[a..b], s[b..c], tag, body);
  }

  // ---------------------------------------------------------------- nothing is left to find

  /** No delimiter starts anywhere in the text. */
  ghost predicate Clean(x: Framing, s: Text) {
    forall i | 0 <= i <= |s| :: MatchAt(x, s[i..]) == None
  }

  lemma FirstOf(x: Framing, s: Text)
    requires Usable(x) && s != []
    ensures var out := Neutralize(x, s);
            && out != [] && (MatchAt(x, s).Some? ==> out[0] == BRACKET)
            && (MatchAt(x, s).None? ==> out == [s[0]] + Neutralize(x, s[1..]))
  {
  }

  /** Sequences that share a front: what is cut off both leaves the same. */
  lemma SameFront(c: CodePoint, s: Text, rest: Text, left: Text, n: nat)
    requires n <= |s| && n <= |rest| && s[..n] == rest[..n] && rest == s[..n] + left
    ensures ([c] + s)[..n + 1] == ([c] + rest)[..n + 1] && [c] + rest == ([c] + s)[..n + 1] + left
    ensures ([c] + s)[n + 1..] == s[n..]
  {
    assert ([c] + s)[..n + 1] == [c] + s[..n];
  }

  lemma FirstIsRetained(x: Framing, s: Text, n: nat)
    requires Usable(x) && 0 < n <= |Neutralize(x, s)| && forall c <- Neutralize(x, s)[..n] :: Inner(c)
    ensures s != [] && Neutralize(x, s) == [s[0]] + Neutralize(x, s[1..])
    ensures n - 1 <= |Neutralize(x, s[1..])| && forall c <- Neutralize(x, s[1..])[..n - 1] :: Inner(c)
  {
    var out := Neutralize(x, s);
    assert s != [];
    FirstOf(x, s);
    assert out[0] in out[..n] && Inner(out[0]);
    var rest := Neutralize(x, s[1..]);
    assert out == [s[0]] + rest;
    hide Neutralize, MatchAt, Inner, Usable;
    assert out[..n] == [s[0]] + rest[..n - 1];
    assert forall c <- rest[..n - 1] :: c in out[..n];
  }

  /** Text that passes through unchanged: what reads as the inside of a tag was there before. */
  lemma {:induction false} InnerTextIsRetained(x: Framing, s: Text, n: nat)
    requires Usable(x) && n <= |Neutralize(x, s)| && forall c <- Neutralize(x, s)[..n] :: Inner(c)
    ensures n <= |s| && s[..n] == Neutralize(x, s)[..n]
    ensures Neutralize(x, s) == s[..n] + Neutralize(x, s[n..])
    decreases |s|
  {
    hide *;
    if n == 0 {
      assert s[0..] == s && s[..0] == [] && Neutralize(x, s)[..0] == [];
    } else {
      FirstIsRetained(x, s, n);
      InnerTextIsRetained(x, s[1..], n - 1);
      assert s == [s[0]] + s[1..];
      SameFront(s[0], s[1..], Neutralize(x, s[1..]), Neutralize(x, s[1..][n - 1..]), n - 1);
    }
  }

  lemma {:induction false} ClosesWereThere(x: Framing, s: Text)
    requires Usable(x) && GREATER in Neutralize(x, s)
    ensures GREATER in s
    decreases |s|
  {
    if s != [] {
      match MatchAt(x, s)
      case Some(e) =>
        assert GREATER in Neutralize(x, s[e..]);
        ClosesWereThere(x, s[e..]);
        assert forall c <- s[e..] :: c in s;
      case None =>
        if s[0] != GREATER {
          assert GREATER in Neutralize(x, s[1..]);
          ClosesWereThere(x, s[1..]);
          assert forall c <- s[1..] :: c in s;
        }
    }
  }

  lemma OpeningIsInner(x: Framing, before: Text, slash: Text, after: Text, tag: Text)
    requires Usable(x) && AllSpace(before) && (slash == [] || slash == [SLASH]) && AllSpace(after)
    requires exists name <- x.names :: Spells(tag, name)
    ensures forall c <- before + slash + after + tag :: Inner(c)
  {
    TagLetters(x, tag);
    assert forall c: CodePoint :: IsSpace(c) ==> Inner(c);
    hide IsSpace, Usable;
    assert forall c <- before + slash + after + tag :: c in before || c in slash || c in after || c in tag;
  }

  lemma Reassociate(before: Text, slash: Text, after: Text, tag: Text, body: Text, rest: Text)
    ensures [LESS] + (before + slash + after + tag) + (body + [GREATER] + rest)
         == ([LESS] + before + slash + after + tag + body + [GREATER]) + rest
  {
    var opening := before + slash + after + tag;
    assert [LESS] + opening == [LESS] + before + slash + after + tag;
  }

  lemma CutAtClose(rest: Text) returns (body: Text, tail: Text)
    requires GREATER in rest
    ensures rest == body + [GREATER] + tail && GREATER !in body
  {
    var k := FirstClose(rest);
    assert rest[..|rest|] == rest;
    body, tail := rest[..k], rest[k + 1..];
  }

  /** A text with an opened tag and a later `>` starts with a delimiter. */
  lemma OpenedAndClosed(x: Framing, before: Text, slash: Text, after: Text, tag: Text, rest: Text)
    requires Usable(x) && AllSpace(before) && (slash == [] || slash == [SLASH]) && AllSpace(after)
    requires (exists name <- x.names :: Spells(tag, name)) && GREATER in rest
    ensures MatchAt(x, [LESS] + (before + slash + after + tag) + rest).Some?
  {
    var body, tail := CutAtClose(rest);
    var m := [LESS] + before + slash + after + tag + body + [GREATER];
    assert SplitsInto(x, m, before, slash, after, tag, body);
    assert Delimiter(x, m);
    hide *;
    DelimitersAreFound(x, m, tail);
    Reassociate(before, slash, after, tag, body, tail);
  }

  /** A delimiter of the output would have been one of the input, where it was looked for and not found. */
  lemma NoDelimiterIsFormed(x: Framing, s: Text)
    requires Usable(x)
    ensures MatchAt(x, Neutralize(x, s)) == None
  {
    var out := Neutralize(x, s);
    if s == [] {
    } else if MatchAt(x, s).Some? {
      assert out[0] == BRACKET;
    } else {
      FormedFromInput(x, s);
    }
  }

  lemma OpeningOf(out: Text, e: nat, before: Text, slash: Text, after: Text, tag: Text, body: Text)
    requires e <= |out| && out[..e] == [LESS] + before + slash + after + tag + body + [GREATER]
    ensures out == [LESS] + (before + slash + after + tag) + (body + [GREATER] + out[e..])
    ensures GREATER in body + [GREATER] + out[e..]
  {
    Reassociate(before, slash, after, tag, body, out[e..]);
    assert out == out[..e] + out[e..];
    assert (body + [GREATER] + out[e..])[|body|] == GREATER;
  }

  lemma FormedFromInput(x: Framing, s: Text)
    requires Usable(x) && s != [] && MatchAt(x, s).None?
    ensures MatchAt(x, Neutralize(x, s)).Some? ==> MatchAt(x, s).Some?
  {
    FirstOf(x, s);
    hide *;
    var out := Neutralize(x, s);
    if MatchAt(x, out).Some? {
      FoundAreDelimiters(x, out);
      var e := MatchAt(x, out).value;
      var before, slash, after, tag, body := DelimiterParts(x, out[..e]);
      OpeningOf(out, e, before, slash, after, tag, body);
      OpenedInInput(x, s, before, slash, after, tag, body + [GREATER] + out[e..]);
    }
  }

  lemma DelimiterParts(x: Framing, m: Text) returns (before: Text, slash: Text, after: Text, tag: Text, body: Text)
    requires Delimiter(x, m)
    ensures m == [LESS] + before + slash + after + tag + body + [GREATER]
    ensures AllSpace(before) && (slash == [] || slash == [SLASH]) && AllSpace(after)
    ensures (exists name <- x.names :: Spells(tag, name)) && GREATER !in body
  {
    before, slash, after, tag, body :| SplitsInto(x, m, before, slash, after, tag, body);
  }

  lemma SameText(c: CodePoint, inner: Text, opening: Text, tail: Text)
    requires [c] + inner == [LESS] + opening + tail
    ensures c == LESS && inner == opening + tail && inner[..|opening|] == opening && inner[|opening|..] == tail
  {
    var out := [c] + inner;
    assert out[0] == LESS;
    assert inner == out[1..];
    assert ([LESS] + opening + tail)[1..] == opening + tail;
  }

  /** The opened tag passed through, and a `>` after it in the output comes from the input. */
  lemma OpenedInInput(x: Framing, s: Text, before: Text, slash: Text, after: Text, tag: Text, tail: Text)
    requires Usable(x) && s != [] && Neutralize(x, s) == [s[0]] + Neutralize(x, s[1..])
    requires AllSpace(before) && (slash == [] || slash == [SLASH]) && AllSpace(after)
    requires (exists name <- x.names :: Spells(tag, name)) && GREATER in tail
    requires Neutralize(x, s) == [LESS] + (before + slash + after + tag) + tail
    ensures MatchAt(x, s).Some?
  {
    hide *;
    OpeningIsInner(x, before, slash, after, tag);
    SameText(s[0], Neutralize(x, s[1..]), before + slash + after + tag, tail);
    var kept := RetainedOpening(x, s[1..], before + slash + after + tag, tail);
    OpenedAndClosed(x, before, slash, after, tag, kept);
    Restored(s, before + slash + after + tag, kept);
  }

  lemma Restored(s: Text, opening: Text, kept: Text)
    requires s != [] && s[0] == LESS && s[1..] == opening + kept
    ensures [LESS] + opening + kept == s
  {
    assert s == [s[0]] + s[1..];
  }

  lemma RetainedOpening(x: Framing, s: Text, opening: Text, tail: Text) returns (kept: Text)
    requires Usable(x) && Neutralize(x, s) == opening + tail && GREATER in tail
    requires forall c <- opening :: Inner(c)
    ensures s == opening + kept && GREATER in kept
  {
    var out, n := Neutralize(x, s), |opening|;
    hide Usable, Neutralize, Inner;
    assert out[..n] == opening;
    InnerTextIsRetained(x, s, n);
    kept := s[n..];
    assert out[n..] == tail && out[n..] == Neutralize(x, kept);
    ClosesWereThere(x, kept);
  }

  /** Neutralised text holds no delimiter, not even one formed across a replacement. */
  lemma {:induction false} NeutralizedIsClean(x: Framing, s: Text)
    requires Usable(x)
    ensures Clean(x, Neutralize(x, s))
    decreases |s|
  {
    hide Clean, MatchAt, Usable;
    NoDelimiterIsFormed(x, s);
    if s == [] {
      NothingIsClean(x);
    } else {
      var head := if MatchAt(x, s).Some? then x.mark else [s[0]];
      var left := if MatchAt(x, s).Some? then s[MatchAt(x, s).value..] else s[1..];
      NeutralizedIsClean(x, left);
      assert Neutralize(x, s) == head + Neutralize(x, left);
      HeadedIsClean(x, head, Neutralize(x, left));
    }
  }

  lemma NothingIsClean(x: Framing)
    requires MatchAt(x, []) == None
    ensures Clean(x, [])
  {
  }

  lemma HeadedIsClean(x: Framing, head: Text, rest: Text)
    requires Usable(x) && (head == x.mark || |head| == 1) && MatchAt(x, head + rest) == None && Clean(x, rest)
    ensures Clean(x, head + rest)
  {
    var out := head + rest;
    forall i | 0 <= i <= |out| ensures MatchAt(x, out[i..]) == None {
      if i == 0 {
        assert out[0..] == out;
      } else if i < |head| {
        assert out[i..][0] == x.mark[i] && x.mark[i] in x.mark;
      } else {
        assert out[i..] == rest[i - |head|..];
      }
    }
  }

  /** Text without delimiters is left as it is. */
  lemma {:induction false} CleanIsUnchanged(x: Framing, s: Text)
    requires Clean(x, s)
    ensures Neutralize(x, s) == s
    decreases |s|
  {
    if s != [] {
      assert s[0..] == s;
      forall i | 0 <= i <= |s[1..]| ensures MatchAt(x, s[1..][i..]) == None { assert s[1..][i..] == s[i + 1..]; }
      CleanIsUnchanged(x, s[1..]);
    }
  }

  lemma NeutralizingTwice(x: Framing, s: Text)
    requires Usable(x)
    ensures Neutralize(x, Neutralize(x, s)) == Neutralize(x, s)
  {
    NeutralizedIsClean(x, s);
    CleanIsUnchanged(x, Neutralize(x, s));
  }

  lemma InsideIsFound(x: Framing, s: Text, i: nat, j: nat)
    requires Usable(x) && i <= j <= |s| && Delimiter(x, s[i..j])
    ensures MatchAt(x, s[i..]).Some?
  {
    hide *;
    DelimitersAreFound(x, s[i..j], s[j..]);
    assert s[i..j] + s[j..] == s[i..];
  }

  /** In the words of the expression: no part of neutralised text is a delimiter. */
  lemma NoPartIsADelimiter(x: Framing, s: Text, i: nat, j: nat)
    requires Usable(x) && i <= j <= |Neutralize(x, s)|
    ensures !Delimiter(x, Neutralize(x, s)[i..j])
  {
    var out := Neutralize(x, s);
    NeutralizedIsClean(x, s);
    assert MatchAt(x, out[i..]) == None;
    hide *;
    if Delimiter(x, out[i..j]) { InsideIsFound(x, out, i, j); }
  }

  /** Text that holds no delimiter anywhere. */
  ghost predicate FreeOfDelimiters(x: Framing, s: Text) {
    forall i, j | 0 <= i <= j <= |s| :: !Delimiter(x, s[i..j])
  }

  /** The scanner finds nothing in a text exactly when no part of it is a delimiter. */
  lemma CleanMeansFree(x: Framing, s: Text)
    requires Usable(x)
    ensures Clean(x, s) <==> FreeOfDelimiters(x, s)
  {
    if Clean(x, s) {
      forall i, j | 0 <= i <= j <= |s| ensures !Delimiter(x, s[i..j]) {
        if Delimiter(x, s[i..j]) { InsideIsFound(x, s, i, j); }
      }
    }
    if FreeOfDelimiters(x, s) {
      forall i | 0 <= i <= |s| ensures MatchAt(x, s[i..]) == None { SuffixIsFree(x, s, i); }
    }
    hide MatchAt, Delimiter;
  }

  lemma SuffixIsFree(x: Framing, s: Text, i: nat)
    requires Usable(x) && FreeOfDelimiters(x, s) && i <= |s|
    ensures MatchAt(x, s[i..]) == None
  {
    var m := MatchAt(x, s[i..]);
    hide MatchAt, Delimiter;
    if m.Some? {
      assert s[i..][..m.value] == s[i..i + m.value];
      FoundAreDelimiters(x, s[i..]);
    }
  }

  /** Neutralising changes a text exactly when some part of it is a delimiter. */
  lemma ChangedExactlyWhenForged(x: Framing, s: Text)
    requires Usable(x)
    ensures Neutralize(x, s) == s <==> FreeOfDelimiters(x, s)
  {
    CleanMeansFree(x, s);
    NeutralizedIsClean(x, s);
    hide *;
    if Clean(x, s) { CleanIsUnchanged(x, s); }
  }
}

/** The tags Diffuse frames its prompts with. */
module PromptTags {
  import opened Text
  import opened Prompt

  const TAG_0: Text := // "untrusted_repository_policy"
    [117, 110, 116, 114, 117, 115, 116, 101, 100, 95, 114, 101, 112, 111, 115, 105, 116, 111, 114, 121,
     95, 112, 111, 108, 105, 99, 121]
  const TAG_1: Text := // "untrusted_pull_request_diff"
    [117, 110, 116, 114, 117, 115, 116, 101, 100, 95, 112, 117, 108, 108, 95, 114, 101, 113, 117, 101,
     115, 116, 95, 100, 105, 102, 102]
  const TAG_2: Text := // "untrusted_retrieved_repository_context"
    [117, 110, 116, 114, 117, 115, 116, 101, 100, 95, 114, 101, 116, 114, 105, 101, 118, 101, 100, 95,
     114, 101, 112, 111, 115, 105, 116, 111, 114, 121, 95, 99, 111, 110, 116, 101, 120, 116]
  const TAG_3: Text := // "untrusted_original_diff_hunk"
    [117, 110, 116, 114, 117, 115, 116, 101, 100, 95, 111, 114, 105, 103, 105, 110, 97, 108, 95, 100,
     105, 102, 102, 95, 104, 117, 110, 107]
  const TAG_4: Text := // "untrusted_prior_thread_conversation"
    [117, 110, 116, 114, 117, 115, 116, 101, 100, 95, 112, 114, 105, 111, 114, 95, 116, 104, 114, 101,
     97, 100, 95, 99, 111, 110, 118, 101, 114, 115, 97, 116, 105, 111, 110]
  const TAG_5: Text := // "untrusted_human_question"
    [117, 110, 116, 114, 117, 115, 116, 101, 100, 95, 104, 117, 109, 97, 110, 95, 113, 117, 101, 115,
     116, 105, 111, 110]
  const TAG_6: Text := // "untrusted_repository_sources_json"
    [117, 110, 116, 114, 117, 115, 116, 101, 100, 95, 114, 101, 112, 111, 115, 105, 116, 111, 114, 121,
     95, 115, 111, 117, 114, 99, 101, 115, 95, 106, 115, 111, 110]
  const TAG_7: Text := // "untrusted_candidates"
    [117, 110, 116, 114, 117, 115, 116, 101, 100, 95, 99, 97, 110, 100, 105, 100, 97, 116, 101, 115]
  const TAG_8: Text := // "untrusted_review_feedback_json"
    [117, 110, 116, 114, 117, 115, 116, 101, 100, 95, 114, 101, 118, 105, 101, 119, 95, 102, 101, 101,
     100, 98, 97, 99, 107, 95, 106, 115, 111, 110]
  const TAG_9: Text := // "diffuse_finding_json"
    [100, 105, 102, 102, 117, 115, 101, 95, 102, 105, 110, 100, 105, 110, 103, 95, 106, 115, 111, 110]
  const TAG_10: Text := // "repository_review_policy_json"
    [114, 101, 112, 111, 115, 105, 116, 111, 114, 121, 95, 114, 101, 118, 105, 101, 119, 95, 112, 111,
     108, 105, 99, 121, 95, 106, 115, 111, 110]
  const TAG_11: Text := // "diffuse_security_policy_json"
    [100, 105, 102, 102, 117, 115, 101, 95, 115, 101, 99, 117, 114, 105, 116, 121, 95, 112, 111, 108,
     105, 99, 121, 95, 106, 115, 111, 110]
  const TAG_12: Text := // "changed_paths_json"
    [99, 104, 97, 110, 103, 101, 100, 95, 112, 97, 116, 104, 115, 95, 106, 115, 111, 110]

  const TAGS: seq<Text> := [TAG_0, TAG_1, TAG_2, TAG_3, TAG_4, TAG_5, TAG_6, TAG_7, TAG_8, TAG_9, TAG_10, TAG_11, TAG_12]

  const NEUTRALIZED: Text := // "[diffuse removed a forged prompt delimiter]"
    [91, 100, 105, 102, 102, 117, 115, 101, 32, 114, 101, 109, 111, 118, 101, 100, 32, 97, 32, 102, 111,
     114, 103, 101, 100, 32, 112, 114, 111, 109, 112, 116, 32, 100, 101, 108, 105, 109, 105, 116, 101,
     114, 93]

  lemma TagsArePlain0()
    ensures Plain(TAG_0) && Plain(TAG_1) && Plain(TAG_2)
  {
  }

  lemma TagsArePlain1()
    ensures Plain(TAG_3) && Plain(TAG_4) && Plain(TAG_5)
  {
  }

  lemma TagsArePlain2()
    ensures Plain(TAG_6) && Plain(TAG_7) && Plain(TAG_8)
  {
  }

  lemma TagsArePlain3()
    ensures Plain(TAG_9) && Plain(TAG_10)
  {
  }

  lemma TagsArePlain4()
    ensures Plain(TAG_11) && Plain(TAG_12)
  {
  }

  lemma TagsArePlain()
    ensures forall name <- TAGS :: Plain(name)
  {
    TagsArePlain0();
    TagsArePlain1();
    TagsArePlain2();
    TagsArePlain3();
    TagsArePlain4();
    hide Plain;
    assert forall name <- TAGS :: name in [TAG_0, TAG_1, TAG_2, TAG_3, TAG_4, TAG_5, TAG_6, TAG_7, TAG_8, TAG_9, TAG_10, TAG_11, TAG_12];
  }

  const FRAMING := Framing(TAGS, NEUTRALIZED)

  lemma FramingIsUsable()
    ensures Usable(FRAMING)
  {
    TagsArePlain();
    MarkIsUsable();
    hide Plain;
  }

  lemma MarkIsUsable()
    ensures NEUTRALIZED != [] && NEUTRALIZED[0] == BRACKET && LESS !in NEUTRALIZED && GREATER !in NEUTRALIZED
  {
  }

  /** With Diffuse's own tags: nothing left to match, nothing changed a second time, nothing changed without need. */
  lemma NeutralizationIsComplete(s: Text)
    ensures forall i, j | 0 <= i <= j <= |Neutralize(FRAMING, s)| :: !Delimiter(FRAMING, Neutralize(FRAMING, s)[i..j])
    ensures Neutralize(FRAMING, Neutralize(FRAMING, s)) == Neutralize(FRAMING, s)
    ensures Neutralize(FRAMING, s) == s <==> forall i, j | 0 <= i <= j <= |s| :: !Delimiter(FRAMING, s[i..j])
  {
    FramingIsUsable();
    ChangedExactlyWhenForged(FRAMING, s);
    NeutralizedIsClean(FRAMING, s);
    CleanMeansFree(FRAMING, Neutralize(FRAMING, s));
    hide Neutralize, Usable, Delimiter, Clean;
    NeutralizingTwice(FRAMING, s);
  }
}
