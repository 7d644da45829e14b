/** The string functions the parser uses, on strings without a null byte. */
module Texts {

  const VERTICAL_TAB := '\U{000B}'

  /** What GLib strips from the ends of a string. */
  predicate IsBlank(c: char) {
    c == ' ' || c == '\t' || c == '\n' || c == '\U{000C}' || c == '\r'
  }

  /** What the string utilities take for whitespace. */
  predicate IsSpace(c: char) {
    IsBlank(c) || c == VERTICAL_TAB
  }

  /** By their codes: tab to carriage return and the space, of which GLib leaves
      out the vertical tab. */
  lemma WhitespaceCodes(c: char)
    ensures IsSpace(c) <==> 9 <= c as int <= 13 || c as int == 32
    ensures IsBlank(c) <==> IsSpace(c) && c as int != 11
  {}

  predicate NoSpace(s: string) {
    forall i :: 0 <= i < |s| ==> !IsSpace(s[i])
  }

  /** The first position of a character, or the length. */
  function Find(s: string, c: char): (i: nat)
    ensures i <= |s| && (i < |s| ==> s[i] == c)
    ensures forall j :: 0 <= j < i ==> s[j] != c
  {
    if s == [] || s[0] == c then 0 else 1 + Find(s[1..], c)
  }

  /** The first position of a space followed by a colon, or the length. */
  function FindColon(s: string): (i: nat)
    ensures i <= |s| && (i < |s| ==> i + 1 < |s| && s[i] == ' ' && s[i + 1] == ':')
    ensures forall j :: 0 <= j < i && j + 1 < |s| ==> !(s[j] == ' ' && s[j + 1] == ':')
  {
    if s == [] || (|s| > 1 && s[0] == ' ' && s[1] == ':') then 0
    else
      assert forall j :: 0 < j < |s| ==> s[j] == s[1..][j - 1];
      1 + FindColon(s[1..])
  }

  /** Without leading blanks. */
  function Chug(s: string): (r: string)
    ensures |r| <= |s| && (r != [] ==> !IsBlank(r[0]))
  {
    if s != [] && IsBlank(s[0]) then Chug(s[1..]) else s
  }

  /** Without trailing blanks. */
  function Chomp(s: string): (r: string)
    ensures r <= s && (r != [] ==> !IsBlank(r[|r| - 1]))
  {
    if s != [] && IsBlank(s[|s| - 1]) then Chomp(s[..|s| - 1]) else s
  }

  /** Without leading whitespace. */
  function Skip(s: string): (r: string)
    ensures |r| <= |s| && (r != [] ==> !IsSpace(r[0]))
  {
    if s != [] && IsSpace(s[0]) then Skip(s[1..]) else s
  }

  /** One space for each run of whitespace. */
  function Squeeze(s: string): string
    decreases |s|
  {
    if s == [] then []
    else if IsSpace(s[0]) then " " + Squeeze(Skip(s[1..]))
    else [s[0]] + Squeeze(s[1..])
  }

  /** The parts between single spaces; the empty string has none. */
  function Split(s: string): seq<string> {
    if s == [] then [] else Parts(s)
  }

  function Parts(s: string): seq<string>
    decreases |s|
  {
    var n := Find(s, ' ');
    if n == |s| then [s] else [s[..n]] + Parts(s[n + 1..])
  }

  /** The length of the leading part without whitespace. */
  function WordLength(s: string): (n: nat)
    ensures n <= |s| && NoSpace(s[..n]) && (n < |s| ==> IsSpace(s[n]))
    ensures s != [] && !IsSpace(s[0]) ==> n > 0
  {
    if s == [] || IsSpace(s[0]) then 0
    else
      var n := 1 + WordLength(s[1..]);
      assert s[..n] == [s[0]] + s[1..][..n - 1];
      n
  }

  /** The fields of a text: its longest parts without whitespace. */
  function Fields(s: string): (fields: seq<string>)
    ensures forall i :: 0 <= i < |fields| ==> fields[i] != [] && NoSpace(fields[i])
    decreases |s|
  {
    var t := Skip(s);
    if t == [] then []
    else
      var n := WordLength(t);
      [t[..n]] + Fields(t[n..])
  }

  // ----- stripping, squeezing and splitting gives the fields

  lemma {:induction false} SqueezeWord(w: string, s: string)
    requires NoSpace(w)
    ensures Squeeze(w + s) == w + Squeeze(s)
  {
    if w == [] {
      assert w + s == s;
    } else {
      SqueezeWord(w[1..], s);
      assert (w + s)[1..] == w[1..] + s;
    }
  }

  lemma {:induction false} PartsWord(w: string, s: string)
    requires NoSpace(w)
    ensures Parts(w) == [w] && Parts(w + " " + s) == [w] + Parts(s)
  {
    var t := w + " " + s;
    assert t[|w|] == ' ' && t[..|w|] == w && t[|w| + 1..] == s;
    assert Find(t, ' ') == |w|;
  }

  lemma {:induction false} SkipSuffix(s: string) returns (k: nat)
    ensures k <= |s| && Skip(s) == s[k..] && forall i :: 0 <= i < k ==> IsSpace(s[i])
  {
    k := 0;
    if s != [] && IsSpace(s[0]) {
      var n := SkipSuffix(s[1..]);
      k := n + 1;
      assert forall i :: 0 < i < k ==> s[i] == s[1..][i - 1];
    }
  }

  lemma FieldsStep(s: string)
    requires s != [] && !IsSpace(s[0])
    ensures WordLength(s) > 0 && Fields(s) == [s[..WordLength(s)]] + Fields(Skip(s[WordLength(s)..]))
  {
    hide WordLength;
    var t := Skip(s[WordLength(s)..]);
    assert Skip(s) == s && Skip(t) == t;
  }

  lemma SqueezeSpace(s: string)
    requires s != [] && IsSpace(s[0])
    ensures Squeeze(s) == " " + Squeeze(Skip(s))
  {
    assert Skip(s) == Skip(s[1..]);
  }

  lemma SqueezeStep(s: string, n: nat)
    requires n == WordLength(s) < |s|
    ensures Squeeze(s) == s[..n] + " " + Squeeze(Skip(s[n..]))
  {
    hide WordLength, Squeeze, Skip, IsSpace;
    SqueezeWord(s[..n], s[n..]);
    SqueezeSpace(s[n..]);
    assert s == s[..n] + s[n..];
    assert s[..n] + (" " + Squeeze(Skip(s[n..]))) == s[..n] + " " + Squeeze(Skip(s[n..]));
  }

  /** Each field after the gap before it. */
  function Woven(fields: seq<string>, gaps: seq<string>): string
    requires |fields| == |gaps|
  {
    if fields == [] then [] else gaps[0] + fields[0] + Woven(fields[1..], gaps[1..])
  }

  predicate AllSpace(s: string) {
    forall i :: 0 <= i < |s| ==> IsSpace(s[i])
  }

  /** One space for a gap, none where there is no gap. */
  function Narrow(gap: string): string {
    if gap == [] then [] else " "
  }

  function Narrowed(gaps: seq<string>): (r: seq<string>)
    ensures |r| == |gaps|
  {
    seq(|gaps|, i requires 0 <= i < |gaps| => Narrow(gaps[i]))
  }

  /** Gaps of whitespace before the fields and at the end, of which only the
      first and the one at the end can be empty. */
  ghost predicate Gaps(s: string, gaps: seq<string>, end: string) {
    && |gaps| == |Fields(s)| && s == Woven(Fields(s), gaps) + end
    && AllSpace(end) && (forall i :: 0 <= i < |gaps| ==> AllSpace(gaps[i]))
    && forall i :: 0 < i < |gaps| ==> gaps[i] != []
  }

  /** A text is its fields with gaps of whitespace between them, and squeezing
      makes each gap one space. */
  lemma {:induction false} SqueezedGaps(s: string) returns (gaps: seq<string>, end: string)
    ensures Gaps(s, gaps, end) && Squeeze(s) == Woven(Fields(s), Narrowed(gaps)) + Narrow(end)
    ensures s != [] && IsSpace(s[0]) ==> (if gaps == [] then end else gaps[0]) != []
    decreases |s|
  {
    hide Squeeze, Fields, Skip, WordLength, Gaps, Narrow, Woven, AllSpace;
    var k := SkipSuffix(s);
    if Skip(s) == [] {
      gaps, end := [], s;
      OnlySpace(s, k);
    } else {
      PrefixSpace(s, k);
      var word, rest := FirstField(s, k);
      var gaps1: seq<string>;
      gaps1, end := SqueezedGaps(rest);
      gaps := [s[..k]] + gaps1;
      GapsNext(s, s[..k], word, rest, gaps1, end);
      assert |gaps1| == |Fields(rest)| by { GapsMatch(rest, gaps1, end); }
      WovenNext(word, Fields(rest), Narrow(s[..k]), Narrowed(gaps1));
      assert Narrowed(gaps) == [Narrow(s[..k])] + Narrowed(gaps1);
    }
  }

  lemma PrefixSpace(s: string, k: nat)
    requires k <= |s| && forall i :: 0 <= i < k ==> IsSpace(s[i])
    ensures AllSpace(s[..k])
  {}

  lemma OnlySpace(s: string, k: nat)
    requires k <= |s| && Skip(s) == s[k..] == [] && forall i :: 0 <= i < k ==> IsSpace(s[i])
    ensures Gaps(s, [], s) && Squeeze(s) == Woven(Fields(s), Narrowed([])) + Narrow(s)
  {
    if s != [] { SqueezeSpace(s); }
  }

  lemma FieldsSkipped(s: string, n: nat)
    requires Skip(s) != [] && n == WordLength(Skip(s))
    ensures n > 0 && Fields(s) == [Skip(s)[..n]] + Fields(Skip(s)[n..])
    ensures NoSpace(Skip(s)[..n]) && (n < |Skip(s)| ==> IsSpace(Skip(s)[n]))
  {}

  /** A text that is not only whitespace: a gap, a field and what follows. */
  lemma FirstField(s: string, k: nat) returns (word: string, rest: string)
    requires k <= |s| && Skip(s) == s[k..] != [] && AllSpace(s[..k])
    ensures s == s[..k] + (word + rest) && |rest| < |s|
    ensures Fields(s) == [word] + Fields(rest) && word != [] && NoSpace(word)
    ensures rest == [] || IsSpace(rest[0])
    ensures Squeeze(s) == Narrow(s[..k]) + (word + Squeeze(rest))
    ensures s != [] && IsSpace(s[0]) ==> s[..k] != []
  {
    hide Skip, WordLength, Fields, Squeeze, Narrow, IsSpace;
    var t, n := s[k..], WordLength(s[k..]);
    FieldsSkipped(s, n);
    word, rest := t[..n], t[n..];
    Cut(s, k);
    Cut(t, n);
    SqueezeGap(s, k);
    SqueezeWord(word, rest);
  }

  lemma Cut(s: string, k: nat)
    requires k <= |s|
    ensures s == s[..k] + s[k..]
  {}

  lemma SqueezeGap(s: string, k: nat)
    requires k <= |s| && Skip(s) == s[k..] != [] && AllSpace(s[..k])
    ensures Squeeze(s) == Narrow(s[..k]) + Squeeze(s[k..])
    ensures s != [] && IsSpace(s[0]) ==> s[..k] != []
  {
    SqueezeSkipped(s);
    SkippedStart(s);
    hide Skip, Squeeze;
    if k > 0 { assert s[0] == s[..k][0]; }
  }

  lemma SkippedStart(s: string)
    ensures Skip(s) != [] ==> !IsSpace(Skip(s)[0])
  {}

  lemma WovenNext(word: string, fields: seq<string>, gap: string, gaps: seq<string>)
    requires |fields| == |gaps|
    ensures Woven([word] + fields, [gap] + gaps) == gap + word + Woven(fields, gaps)
  {
    assert ([word] + fields)[1..] == fields && ([gap] + gaps)[1..] == gaps;
  }

  lemma GapsMatch(s: string, gaps: seq<string>, end: string)
    requires Gaps(s, gaps, end)
    ensures |gaps| == |Fields(s)|
  {}

  lemma NoFields()
    ensures Fields([]) == []
  {}

  lemma GapsNext(s: string, gap: string, word: string, rest: string, gaps: seq<string>, end: string)
    requires s == gap + (word + rest) && AllSpace(gap) && Fields(s) == [word] + Fields(rest)
    requires Gaps(rest, gaps, end)
    requires rest == [] || (IsSpace(rest[0]) && (if gaps == [] then end else gaps[0]) != [])
    ensures Gaps(s, [gap] + gaps, end)
  {
    hide Fields, Woven, AllSpace, IsSpace;
    var front := Woven(Fields(rest), gaps);
    WovenNext(word, Fields(rest), gap, gaps);
    Associative(gap, word, rest);
    Associative(gap + word, front, end);
    if rest == [] { NoFields(); }
    MoreGaps(gap, gaps);
  }

  lemma Associative(a: string, b: string, c: string)
    ensures a + (b + c) == a + b + c
  {}

  lemma MoreGaps(gap: string, gaps: seq<string>)
    requires AllSpace(gap) && forall i :: 0 <= i < |gaps| ==> AllSpace(gaps[i]) && (i > 0 ==> gaps[i] != [])
    requires gaps != [] ==> gaps[0] != []
    ensures forall i :: 0 <= i < |[gap] + gaps| ==> AllSpace(([gap] + gaps)[i]) && (i > 0 ==> ([gap] + gaps)[i] != [])
  {
    hide AllSpace;
  }

  lemma SqueezeSkipped(s: string)
    ensures s != [] && IsSpace(s[0]) ==> Squeeze(s) == " " + Squeeze(Skip(s))
    ensures s == [] || !IsSpace(s[0]) ==> Skip(s) == s
    ensures Squeeze([]) == []
  {
    if s != [] && IsSpace(s[0]) { SqueezeSpace(s); }
  }

  /** An empty part where a text ends with whitespace. */
  function Edge(space: bool): seq<string> {
    if space then [""] else []
  }

  lemma PartsOfNothing()
    ensures Parts(Squeeze([])) == [""] && Fields([]) == []
  {}

  lemma PartsOfWord(s: string)
    requires s != [] && !IsSpace(s[0]) && WordLength(s) == |s|
    ensures Parts(Squeeze(s)) == [s] && Fields(s) == [s]
  {
    FieldsStep(s);
    assert s[..|s|] == s && s[|s|..] == [] && s + [] == s;
    SqueezeWord(s, []);
    PartsWord(s, []);
  }

  lemma PartsStep(s: string, n: nat)
    requires s != [] && !IsSpace(s[0]) && n == WordLength(s) < |s|
    ensures Parts(Squeeze(s)) == [s[..n]] + Parts(Squeeze(Skip(s[n..])))
  {
    SqueezeStep(s, n);
    PartsWord(s[..n], Squeeze(Skip(s[n..])));
  }

  /** What is left after skipping ends as the text does. */
  lemma SkippedEnd(s: string)
    requires s != []
    ensures IsSpace(s[|s| - 1]) <==> Skip(s) == [] || IsSpace(Skip(s)[|Skip(s)| - 1])
  {
    hide Skip;
    var k := SkipSuffix(s);
  }

  /** For a text that is empty or starts with a field. */
  lemma {:induction false} PartsOfSqueezed(s: string)
    requires s != [] ==> !IsSpace(s[0])
    ensures Parts(Squeeze(s)) == Fields(s) + Edge(s == [] || IsSpace(s[|s| - 1]))
    decreases |s|
  {
    hide Squeeze, Parts, Fields, WordLength, Skip;
    if s == [] {
      PartsOfNothing();
    } else {
      FieldsStep(s);
      var n := WordLength(s);
      if n == |s| {
        PartsOfWord(s);
      } else {
        PartsStep(s, n);
        SkippedEnd(s[n..]);
        assert s[n..][|s[n..]| - 1] == s[|s| - 1];
        PartsOfSqueezed(Skip(s[n..]));
      }
    }
  }

  lemma PartsAfterSpace(s: string)
    requires s != [] && IsSpace(s[0])
    ensures Parts(Squeeze(s)) == [""] + Parts(Squeeze(Skip(s))) && Fields(s) == Fields(Skip(s))
  {
    var rest := Skip(s);
    assert Skip(s[1..]) == rest && Skip(rest) == rest;
    PartsWord("", Squeeze(rest));
    assert "" + " " + Squeeze(rest) == " " + Squeeze(rest) == Squeeze(s);
  }

  lemma SqueezedNotEmpty(s: string)
    requires s != []
    ensures Split(Squeeze(s)) == Parts(Squeeze(s))
  {}

  lemma EdgeInFront(fields: seq<string>, end: seq<string>)
    ensures Edge(false) + fields + end == fields + end
    ensures Edge(true) + fields + end == [""] + (fields + end)
  {}

  /** What the parts of a text are: its fields, and an empty part at each end
      that is whitespace. */
  lemma SplitOfSqueezed(s: string)
    requires s != []
    ensures Split(Squeeze(s)) == Edge(IsSpace(s[0])) + Fields(s) + Edge(IsSpace(s[|s| - 1]))
  {
    hide Squeeze, Parts, Fields, Skip, Edge, IsSpace, Split;
    var end := Edge(IsSpace(s[|s| - 1]));
    SqueezedNotEmpty(s);
    EdgeInFront(Fields(s), end);
    if !IsSpace(s[0]) {
      PartsOfSqueezed(s);
    } else {
      PartsAfterSpace(s);
      SkippedEnd(s);
      PartsOfSqueezed(Skip(s));
      assert Parts(Squeeze(s)) == [""] + (Fields(s) + end);
    }
  }

  lemma {:induction false} FieldsChomped(s: string, c: char)
    requires IsSpace(c)
    ensures Fields(s + [c]) == Fields(s)
    decreases |s|
  {
    var k := SkipSuffix(s);
    SkipExtended(s, c);
    var t := Skip(s);
    if t != [] {
      WordExtended(t, c);
      var n := WordLength(t);
      assert (t + [c])[..n] == t[..n] && (t + [c])[n..] == t[n..] + [c];
      FieldsChomped(t[n..], c);
    }
  }

  lemma {:induction false} SkipExtended(s: string, c: char)
    requires IsSpace(c)
    ensures Skip(s + [c]) == if Skip(s) == [] then [] else Skip(s) + [c]
  {
    if s == [] {
      assert s + [c] == [c] && [c][1..] == [];
    } else {
      assert (s + [c])[1..] == s[1..] + [c];
      if IsSpace(s[0]) { SkipExtended(s[1..], c); }
    }
  }

  lemma {:induction false} WordExtended(s: string, c: char)
    requires IsSpace(c)
    ensures WordLength(s + [c]) == WordLength(s)
  {
    if s != [] {
      assert (s + [c])[1..] == s[1..] + [c];
      if !IsSpace(s[0]) { WordExtended(s[1..], c); }
    }
  }

  lemma {:induction false} FieldsOfChomp(s: string)
    ensures Fields(Chomp(s)) == Fields(s)
  {
    if s != [] && IsBlank(s[|s| - 1]) {
      var last := |s| - 1;
      FieldsOfChomp(s[..last]);
      FieldsChomped(s[..last], s[last]);
      assert s == s[..last] + [s[last]];
    }
  }

  lemma {:induction false} FieldsOfChug(s: string)
    ensures Fields(Chug(s)) == Fields(s)
  {
    if s != [] && IsBlank(s[0]) {
      FieldsOfChug(s[1..]);
    }
  }

  function Stripped(s: string): string {
    Chomp(Chug(s))
  }

  /** The parts the parser gets out of a text: stripped, squeezed and split. */
  function Parameters(s: string): seq<string> {
    Split(Squeeze(Stripped(s)))
  }

  /** They are the fields of the text, for every text, if and only if the
      stripped text neither starts nor ends with a vertical tab, which is left
      there; otherwise there is an empty part at that end. */
  lemma ParametersAreFields(s: string)
    ensures var t := Stripped(s);
            && (t == [] ==> Parameters(s) == [] == Fields(s))
            && (t != [] ==> Parameters(s) == Edge(t[0] == VERTICAL_TAB) + Fields(s) + Edge(t[|t| - 1] == VERTICAL_TAB))
            && (Parameters(s) == Fields(s) <==> t == [] || (t[0] != VERTICAL_TAB && t[|t| - 1] != VERTICAL_TAB))
  {
    var t := Chug(s);
    var u := Chomp(t);
    FieldsOfChug(s);
    FieldsOfChomp(t);
    hide Chug, Chomp, Squeeze, Split, Fields, Edge;
    if u != [] {
      SplitOfSqueezed(u);
      StrippedEnds(s);
      EdgesShow(Fields(s), IsSpace(u[0]), IsSpace(u[|u| - 1]));
    } else {
      NoParts();
    }
  }

  lemma EdgesShow(fields: seq<string>, a: bool, b: bool)
    ensures Edge(a) + fields + Edge(b) == fields <==> !a && !b
  {
    assert |Edge(a) + fields + Edge(b)| == |Edge(a)| + |fields| + |Edge(b)|;
    if !a && !b { assert Edge(a) + fields + Edge(b) == fields; }
  }

  lemma NoParts()
    ensures Split(Squeeze([])) == [] && Fields([]) == []
  {}

  lemma {:induction false} ChugPart(s: string)
    ensures forall c :: c in Chug(s) ==> c in s
  {
    if s != [] && IsBlank(s[0]) { ChugPart(s[1..]); }
  }

  lemma {:induction false} ChugExactly(s: string)
    ensures Chug(s) == s[|s| - |Chug(s)|..]
    ensures forall i :: 0 <= i < |s| - |Chug(s)| ==> IsBlank(s[i])
  {
    if s != [] && IsBlank(s[0]) {
      ChugExactly(s[1..]);
      assert forall i :: 0 < i < |s| ==> s[i] == s[1..][i - 1];
    }
  }

  lemma {:induction false} ChompExactly(s: string)
    ensures forall i :: |Chomp(s)| <= i < |s| ==> IsBlank(s[i])
  {
    if s != [] && IsBlank(s[|s| - 1]) { ChompExactly(s[..|s| - 1]); }
  }

  /** Stripping takes nothing but blanks off the ends. */
  lemma StrippedEnds(s: string)
    ensures forall c :: c in Stripped(s) ==> c in s
    ensures Stripped(s) != [] ==> !IsBlank(Stripped(s)[0]) && !IsBlank(Stripped(s)[|Stripped(s)| - 1])
  {
    ChugPart(s);
  }

  // ----- fields of a text made of words and gaps

  function Spaces(n: nat): (s: string)
    ensures |s| == n && forall i :: 0 <= i < n ==> s[i] == ' '
  {
    seq(n, _ => ' ')
  }

  /** Each word after at least one space. */
  function Words(words: seq<string>, gaps: seq<nat>): string
    requires |words| == |gaps|
  {
    if words == [] then [] else Spaces(gaps[0] + 1) + words[0] + Words(words[1..], gaps[1..])
  }

  lemma {:induction false} SkipSpaces(n: nat, s: string)
    ensures s == [] || !IsBlank(s[0]) ==> Chug(Spaces(n) + s) == s
    ensures s == [] || !IsSpace(s[0]) ==> Skip(Spaces(n) + s) == s
  {
    if n > 0 {
      SkipSpaces(n - 1, s);
      assert (Spaces(n) + s)[1..] == Spaces(n - 1) + s;
    } else {
      assert Spaces(n) + s == s;
    }
  }

  lemma {:induction false} WordThen(w: string, s: string)
    requires NoSpace(w) && (s == [] || IsSpace(s[0]))
    ensures WordLength(w + s) == |w|
  {
    if w == [] {
      assert w + s == s;
    } else {
      WordThen(w[1..], s);
      assert (w + s)[1..] == w[1..] + s;
    }
  }

  /** Words without whitespace come back as the fields. */
  lemma {:induction false} FieldsOfWords(words: seq<string>, gaps: seq<nat>, extra: nat)
    requires |words| == |gaps|
    requires forall i :: 0 <= i < |words| ==> words[i] != [] && NoSpace(words[i])
    ensures Fields(Words(words, gaps) + Spaces(extra)) == words
    decreases |words|
  {
    var text := Words(words, gaps) + Spaces(extra);
    if words == [] {
      assert text == Spaces(extra) + [];
      SkipSpaces(extra, []);
    } else {
      var rest := Words(words[1..], gaps[1..]) + Spaces(extra);
      assert text == Spaces(gaps[0] + 1) + (words[0] + rest);
      SkipSpaces(gaps[0] + 1, words[0] + rest);
      assert rest != [] ==> IsSpace(rest[0]);
      WordThen(words[0], rest);
      var t := words[0] + rest;
      assert t[..|words[0]|] == words[0] && t[|words[0]|..] == rest;
      FieldsOfWords(words[1..], gaps[1..], extra);
      assert words == [words[0]] + words[1..];
    }
  }

  lemma {:induction false} NoVerticalTab(words: seq<string>, gaps: seq<nat>, extra: nat)
    requires |words| == |gaps| && forall i :: 0 <= i < |words| ==> NoSpace(words[i])
    ensures VERTICAL_TAB !in Words(words, gaps) + Spaces(extra)
  {
    if words != [] {
      NoVerticalTab(words[1..], gaps[1..], extra);
      assert Words(words, gaps) == Spaces(gaps[0] + 1) + words[0] + Words(words[1..], gaps[1..]);
      assert forall c :: c in Words(words[1..], gaps[1..]) ==> c in Words(words[1..], gaps[1..]) + Spaces(extra);
    }
  }

  /** So they are what the parser makes of the text. */
  lemma ParametersOfWords(words: seq<string>, gaps: seq<nat>, extra: nat)
    requires |words| == |gaps|
    requires forall i :: 0 <= i < |words| ==> words[i] != [] && NoSpace(words[i])
    ensures Parameters(Words(words, gaps) + Spaces(extra)) == words
  {
    hide Words, Parameters, Stripped;
    var text := Words(words, gaps) + Spaces(extra);
    NoVerticalTab(words, gaps, extra);
    FieldsOfWords(words, gaps, extra);
    ParametersAreFields(text);
    StrippedEnds(text);
    assert Stripped(text) != [] ==> Stripped(text)[0] in text && Stripped(text)[|Stripped(text)| - 1] in text;
  }

  lemma {:induction false} ChompAfter(a: string, s: string)
    requires a != [] && !IsBlank(a[|a| - 1])
    ensures Chomp(a + s) == a + Chomp(s)
    decreases |s|
  {
    if s == [] {
      assert a + s == a;
    } else {
      var last := |s| - 1;
      assert (a + s)[..|a + s| - 1] == a + s[..last];
      if IsBlank(s[last]) { ChompAfter(a, s[..last]); }
    }
  }
}

/** The parser of src/modules/irc_parser/irc_parser.c, against the grammar in
    section 2.3.1 of RFC 1459. */
module IrcParser {
  import opened Basics
  import opened Texts

  datatype IrcMessage = IrcMessage(rawMessage: string, prefix: Option<string>, command: string,
                                   params: Option<seq<string>>, trailing: Option<string>)

  // ----- in place

  function SpaceLength(s: string): (n: nat)
    ensures n <= |s| && Skip(s) == s[n..]
  {
    if s == [] || !IsSpace(s[0]) then 0 else 1 + SpaceLength(s[1..])
  }

  method Move(str: array<char>, to: nat, from: nat, end: nat)
    requires to <= from <= end <= str.Length
    modifies str
    ensures str[..to] == old(str[..to]) && str[to..to + end - from] == old(str[from..end])
  {
    var text := str[from..end];
    forall k | to <= k < to + |text| {
      str[k] := text[k - to];
    }
  }

  lemma SqueezeRun(head: string, s: string, n: nat)
    requires 0 < n == SpaceLength(s)
    ensures head + Squeeze(s) == (head + [' ']) + Squeeze(s[n..])
  {
    assert Skip(s) == Skip(s[1..]);
  }

  lemma SqueezePart(head: string, s: string, n: nat)
    requires n == WordLength(s)
    ensures head + Squeeze(s) == (head + s[..n]) + Squeeze(s[n..])
  {
    SqueezeWord(s[..n], s[n..]);
    assert s == s[..n] + s[n..];
  }

  /** Replaces the run of whitespace at p by one space. */
  method EatWhitespace(str: array<char>, p: nat, length: nat, whitespace: nat) returns (len: nat)
    requires p + whitespace <= length <= str.Length && whitespace > 0
    modifies str
    ensures p < len <= length && len == length - whitespace + 1
    ensures str[..p + 1] == old(str[..p]) + [' '] && str[p + 1..len] == old(str[p..length])[whitespace..]
  {
    ghost var head := str[..p];
    str[p] := ' ';
    assert str[..p + 1] == head + [' '];
    Move(str, p + 1, p + whitespace, length);
    len := length - whitespace + 1;
  }

  method StripDuplicateWhitespace(str: array<char>, length: nat) returns (len: nat)
    requires length <= str.Length
    modifies str
    ensures len <= length && str[..len] == Squeeze(old(str[..length]))
  {
    hide *;
    len := length;
    var p := 0;
    ghost var head, tail := str[..p], str[p..len];
    assert head == [] && tail == str[..length];
    while p < len
      invariant p <= len <= length && head == str[..p] && tail == str[p..len]
      invariant head + Squeeze(tail) == Squeeze(old(str[..length]))
    {
      var whitespace := SpaceLength(str[p..len]);
      if whitespace > 0 {
        SqueezeRun(head, tail, whitespace);
        len := EatWhitespace(str, p, len, whitespace);
        p := p + 1;
        head, tail := head + [' '], tail[whitespace..];
      }
      var textlength := WordLength(str[p..len]);
      if whitespace == 0 && textlength == 0 { NoProgress(tail); }
      SqueezePart(head, tail, textlength);
      Slices(str, p, textlength, len);
      head, tail := head + tail[..textlength], tail[textlength..];
      p := p + textlength;
    }
    SqueezeNothing();
    assert tail == [] && head + [] == head;
  }

  lemma Slices(str: array<char>, p: nat, n: nat, len: nat)
    requires p + n <= len <= str.Length
    ensures str[..p + n] == str[..p] + str[p..len][..n] && str[p + n..len] == str[p..len][n..]
  {}

  lemma NoProgress(s: string)
    requires SpaceLength(s) == 0 && WordLength(s) == 0
    ensures s == []
  {}

  lemma SqueezeNothing()
    ensures Squeeze([]) == []
  {}

  // ----- messages

  /** The middle parameters, out of the text before the trailing part; no list
      at all when there is no such text. */
  function Params(tail: string): Option<seq<string>> {
    if FindColon(tail) > 0 then Some(Parameters(tail[..FindColon(tail)])) else None
  }

  function Trailing(tail: string): Option<string> {
    var end := FindColon(tail);
    if end == |tail| then None
    else
      assert tail[end..] == " :" + tail[end + 2..];
      Some(Chomp(tail[end + 2..]))
  }

  /** The message after its prefix. */
  function Unprefixed(rawMessage: string, prefix: Option<string>, text: string): IrcMessage {
    var commandPart := Chug(text);
    var end := Find(commandPart, ' ');
    if end == |commandPart| then IrcMessage(rawMessage, prefix, commandPart, None, None)
    else
      IrcMessage(rawMessage, prefix, commandPart[..end], Params(commandPart[end..]), Trailing(commandPart[end..]))
  }

  function Parsed(message: string): Option<IrcMessage> {
    if message == [] || message[0] != ':' then Some(Unprefixed(message, None, message))
    else
      var end := Find(message, ' ');
      if end == |message| then None
      else Some(Unprefixed(message, Some(message[1..end]), message[end..]))
  }

  /** Strips the text and its duplicate whitespace in a buffer and splits it. */
  method ParseParams(text: string) returns (params: seq<string>)
    ensures params == Parameters(text)
  {
    hide Chug, Chomp, Squeeze, Split;
    var paramsText := Chomp(Chug(text));
    var buffer := new char[|paramsText|](i requires 0 <= i < |paramsText| => paramsText[i]);
    assert buffer[..|paramsText|] == paramsText;
    var length := StripDuplicateWhitespace(buffer, |paramsText|);
    params := Split(buffer[..length]);
  }

  lemma NoTrailing(tail: string)
    ensures FindColon(tail) == |tail| ==> Trailing(tail) == None
  {}

  lemma TrailingIs(tail: string)
    requires FindColon(tail) < |tail|
    ensures var part := Chomp(tail[FindColon(tail)..]); |part| >= 2 && Trailing(tail) == Some(part[2..])
  {
    hide FindColon, Chomp;
    var end := FindColon(tail);
    assert tail[end..] == " :" + tail[end + 2..];
    ChompAfter(" :", tail[end + 2..]);
  }

  method ParseIrcMessage(message: string) returns (r: Option<IrcMessage>)
    ensures r == Parsed(message)
  {
    hide Find, FindColon, Parameters, Chug, Chomp, Trailing;
    var prefixEnd := 0;
    var prefix: Option<string> := None;
    if message != [] && message[0] == ':' {
      prefixEnd := Find(message, ' ');
      if prefixEnd == |message| { return None; }
      prefix := Some(message[1..prefixEnd]);
    }
    var commandPart := Chug(message[prefixEnd..]);
    var commandEnd := Find(commandPart, ' ');
    if commandEnd == |commandPart| {
      return Some(IrcMessage(message, prefix, commandPart, None, None));
    }
    var command := commandPart[..commandEnd];
    var tail := commandPart[commandEnd..];
    var paramsEnd := FindColon(tail);
    var params: Option<seq<string>> := None;
    if paramsEnd > 0 {
      var fields := ParseParams(tail[..paramsEnd]);
      params := Some(fields);
    }
    var trailing: Option<string> := None;
    NoTrailing(tail);
    if paramsEnd < |tail| {
      TrailingIs(tail);
      var trailingPart := Chomp(tail[paramsEnd..]);
      trailing := Some(trailingPart[2..]);
    }
    r := Some(IrcMessage(message, prefix, command, params, trailing));
  }

  // ----- every message, of the grammar or not

  /** The message is the prefix, blanks, the command and the rest; nothing of
      it is lost. */
  ghost predicate TakenApart(message: string, m: IrcMessage, blanks: string, tail: string) {
    && m.rawMessage == message
    && message == (if m.prefix.Some? then ":" + m.prefix.value else []) + blanks + m.command + tail
    && (m.prefix.Some? <==> message != [] && message[0] == ':')
    && (m.prefix.Some? ==> ' ' !in m.prefix.value && blanks != [] && blanks[0] == ' ')
    && (forall i :: 0 <= i < |blanks| ==> IsBlank(blanks[i]))
    && ' ' !in m.command && (m.command != [] ==> !IsBlank(m.command[0])) && (m.command == [] ==> tail == [])
    && (tail != [] ==> tail[0] == ' ')
  }

  /** The rest: the parameters reach up to the first space with a colon behind
      it, where the trailing part begins. */
  ghost predicate RestTaken(tail: string, m: IrcMessage, k: nat) {
    && k <= |tail| && (k < |tail| ==> k + 1 < |tail| && tail[k] == ' ' && tail[k + 1] == ':')
    && (forall j :: 0 <= j < k && j + 1 < |tail| ==> !(tail[j] == ' ' && tail[j + 1] == ':'))
    && m.params == (if k == 0 then None else Some(Parameters(tail[..k])))
    && m.trailing == if k == |tail| then None else Some(Chomp(tail[k + 2..]))
  }

  /** Only a prefix without a space after it is refused; every other message,
      even an empty one, is taken apart. */
  lemma ParsedExactly(message: string)
    ensures Parsed(message) == None <==> message != [] && message[0] == ':' && ' ' !in message
    ensures Parsed(message).Some? ==>
              exists blanks, tail, k :: TakenApart(message, Parsed(message).value, blanks, tail)
                                        && RestTaken(tail, Parsed(message).value, k)
  {
    hide Parameters, FindColon, Chomp, Chug, Find;
    if message == [] || message[0] != ':' {
      var blanks, tail := UnprefixedExactly(message, None, message);
    } else {
      var end := Find(message, ' ');
      if end < |message| {
        assert message == ":" + message[1..end] + message[end..];
        var blanks, tail := UnprefixedExactly(message, Some(message[1..end]), message[end..]);
      }
    }
  }

  lemma UnprefixedExactly(message: string, prefix: Option<string>, text: string) returns (blanks: string, tail: string)
    requires message == (if prefix.Some? then ":" + prefix.value else []) + text
    requires prefix.Some? <==> message != [] && message[0] == ':'
    requires prefix.Some? ==> ' ' !in prefix.value && text != [] && text[0] == ' '
    ensures TakenApart(message, Unprefixed(message, prefix, text), blanks, tail)
    ensures RestTaken(tail, Unprefixed(message, prefix, text), FindColon(tail))
  {
    hide Parameters, FindColon, Chomp, Chug, Find;
    var commandPart := Chug(text);
    var end := Find(commandPart, ' ');
    blanks, tail := text[..|text| - |commandPart|], commandPart[end..];
    CommandTaken(text, blanks, commandPart[..end], tail);
    NothingAfter();
    var m := Unprefixed(message, prefix, text);
    assert m.command == commandPart[..end] && m.prefix == prefix && m.rawMessage == message by {
      assert end == |commandPart| ==> commandPart[..end] == commandPart;
    }
    hide Unprefixed;
    MessageTaken(message, m, blanks, tail, text);
  }

  lemma CommandTaken(text: string, blanks: string, command: string, tail: string)
    requires var part := Chug(text); var end := Find(part, ' ');
             blanks == text[..|text| - |part|] && command == part[..end] && tail == part[end..]
    ensures text == blanks + command + tail && forall i :: 0 <= i < |blanks| ==> IsBlank(blanks[i])
    ensures ' ' !in command && (command != [] ==> !IsBlank(command[0])) && (command == [] ==> tail == [])
    ensures tail != [] ==> tail[0] == ' '
    ensures text != [] && text[0] == ' ' ==> blanks != [] && blanks[0] == ' '
  {
    var part := Chug(text);
    BlanksTaken(text, blanks, part);
    hide Chug;
    FirstSpace(part, command, tail);
    hide Find, IsBlank;
    Associative(blanks, command, tail);
  }

  lemma BlanksTaken(text: string, blanks: string, part: string)
    requires part == Chug(text) && blanks == text[..|text| - |part|]
    ensures text == blanks + part && forall i :: 0 <= i < |blanks| ==> IsBlank(blanks[i])
    ensures part != [] ==> !IsBlank(part[0])
    ensures text != [] && text[0] == ' ' ==> blanks != [] && blanks[0] == ' '
  {
    ChugExactly(text);
    hide Chug;
    Cut(text, |text| - |part|);
  }

  lemma FirstSpace(part: string, command: string, tail: string)
    requires var end := Find(part, ' '); command == part[..end] && tail == part[end..]
    requires part != [] ==> !IsBlank(part[0])
    ensures part == command + tail && ' ' !in command && (tail != [] ==> tail[0] == ' ')
    ensures (command != [] ==> !IsBlank(command[0])) && (command == [] ==> tail == [])
  {
    hide Find;
  }

  lemma MessageTaken(message: string, m: IrcMessage, blanks: string, tail: string, text: string)
    requires message == (if m.prefix.Some? then ":" + m.prefix.value else []) + text && m.rawMessage == message
    requires text == blanks + m.command + tail && forall i :: 0 <= i < |blanks| ==> IsBlank(blanks[i])
    requires m.prefix.Some? <==> message != [] && message[0] == ':'
    requires m.prefix.Some? ==> ' ' !in m.prefix.value && blanks != [] && blanks[0] == ' '
    requires ' ' !in m.command && (m.command != [] ==> !IsBlank(m.command[0])) && (m.command == [] ==> tail == [])
    requires tail != [] ==> tail[0] == ' '
    ensures TakenApart(message, m, blanks, tail)
  {
    var front := if m.prefix.Some? then ":" + m.prefix.value else [];
    assert front + (blanks + m.command + tail) == front + blanks + m.command + tail;
  }

  lemma NothingAfter()
    ensures FindColon([]) == 0
  {}

  // ----- the grammar

  /** A message as it is written down: each part, and the spaces beyond the
      required one before the command, before each parameter and at the end or
      before the trailing part. */
  datatype Written = Written(prefix: Option<string>, lead: nat, command: string,
                             middles: seq<string>, gaps: seq<nat>, trailing: Option<string>, extra: nat)

  predicate Octets(s: string) {
    forall i :: 0 <= i < |s| ==> s[i] != '\U{0000}' && s[i] != '\r' && s[i] != '\n'
  }

  predicate Letter(c: char) {
    'a' <= c <= 'z' || 'A' <= c <= 'Z'
  }

  predicate IsCommand(s: string) {
    (s != [] && forall i :: 0 <= i < |s| ==> Letter(s[i])) || (|s| == 3 && forall i :: 0 <= i < |s| ==> '0' <= s[i] <= '9')
  }

  predicate IsMiddle(s: string) {
    s != [] && Octets(s) && s[0] != ':' && ' ' !in s
  }

  predicate Grammatical(w: Written) {
    && (w.prefix.Some? ==> Octets(w.prefix.value) && w.prefix.value != [] && ' ' !in w.prefix.value)
    && IsCommand(w.command)
    && |w.gaps| == |w.middles| && (forall i :: 0 <= i < |w.middles| ==> IsMiddle(w.middles[i]))
    && (w.trailing.Some? ==> Octets(w.trailing.value))
  }

  function Tail(w: Written): string
    requires |w.gaps| == |w.middles|
  {
    Words(w.middles, w.gaps) + Spaces(w.extra) + if w.trailing.Some? then " :" + w.trailing.value else []
  }

  function Text(w: Written): string
    requires |w.gaps| == |w.middles|
  {
    (if w.prefix.Some? then [':'] + w.prefix.value + Spaces(w.lead + 1) else []) + w.command + Tail(w)
  }

  /** The parts of a message, with an absent list of parameters read as empty. */
  predicate HasParts(m: IrcMessage, w: Written) {
    && m.prefix == w.prefix && m.command == w.command
    && (if m.params.Some? then m.params.value else []) == w.middles
    && m.trailing == (if w.trailing.Some? then Some(Chomp(w.trailing.value)) else None)
  }

  lemma {:induction false} NoColonInWords(words: seq<string>, gaps: seq<nat>, extra: nat, rest: string)
    requires |words| == |gaps| && forall i :: 0 <= i < |words| ==> IsMiddle(words[i])
    requires rest == [] || (|rest| > 1 && rest[0] == ' ' && rest[1] == ':')
    ensures FindColon(Words(words, gaps) + Spaces(extra) + rest) == |Words(words, gaps)| + extra
  {
    var before := Words(words, gaps) + Spaces(extra);
    var text := before + rest;
    forall j | 0 <= j < |before| && j + 1 < |text|
      ensures !(text[j] == ' ' && text[j + 1] == ':')
    {
      if j + 1 < |Words(words, gaps)| {
        WordsColon(words, gaps, j);
      } else if j + 1 < |before| {
        assert text[j + 1] == ' ';
      }
    }
    if rest != [] { assert text[|before|] == ' ' && text[|before| + 1] == ':'; }
  }

  lemma {:induction false} WordsColon(words: seq<string>, gaps: seq<nat>, j: nat)
    requires |words| == |gaps| && (forall i :: 0 <= i < |words| ==> IsMiddle(words[i])) && j + 1 < |Words(words, gaps)|
    ensures !(Words(words, gaps)[j] == ' ' && Words(words, gaps)[j + 1] == ':')
    decreases |words|
  {
    var front := Spaces(gaps[0] + 1) + words[0];
    var rest := Words(words[1..], gaps[1..]);
    assert Words(words, gaps) == front + rest;
    if j >= |front| {
      WordsColon(words[1..], gaps[1..], j - |front|);
    } else if j < gaps[0] {
      assert front[j + 1] == ' ';
    } else if j == gaps[0] {
      assert front[j + 1] == words[0][0];
    } else {
      assert front[j] == words[0][j - gaps[0] - 1];
    }
  }

  lemma CommandFacts(command: string)
    requires IsCommand(command)
    ensures command != [] && NoSpace(command) && ' ' !in command && command[0] != ':'
  {}

  /** A tail starts with a space, and gives back parameters and trailing part. */
  lemma TailParts(w: Written)
    requires Grammatical(w)
    ensures Tail(w) != [] ==> Tail(w)[0] == ' '
    ensures Trailing(Tail(w)) == if w.trailing.Some? then Some(Chomp(w.trailing.value)) else None
    ensures Params(Tail(w)) == if Words(w.middles, w.gaps) + Spaces(w.extra) == [] then None
                               else Some(Parameters(Words(w.middles, w.gaps) + Spaces(w.extra)))
  {
    hide Parameters, Chomp, FindColon, IsMiddle, IsCommand;
    var before := Words(w.middles, w.gaps) + Spaces(w.extra);
    var rest := if w.trailing.Some? then " :" + w.trailing.value else [];
    NoColonInWords(w.middles, w.gaps, w.extra, rest);
    assert Tail(w) == before + rest;
    assert Tail(w)[..|before|] == before;
    if w.trailing.Some? { assert Tail(w)[|before| + 2..] == w.trailing.value; }
  }

  lemma FindAt(front: string, rest: string)
    requires ' ' !in front && rest != [] && rest[0] == ' '
    ensures Find(front + rest, ' ') == |front|
  {
    assert (front + rest)[|front|] == ' ';
    assert forall j :: 0 <= j < |front| ==> (front + rest)[j] == front[j];
  }

  lemma NoTail()
    ensures Params([]) == None && Trailing([]) == None
  {}

  lemma UnprefixedParts(rawMessage: string, prefix: Option<string>, n: nat, command: string, tail: string)
    requires IsCommand(command) && (tail != [] ==> tail[0] == ' ')
    ensures Unprefixed(rawMessage, prefix, Spaces(n) + (command + tail)) ==
            IrcMessage(rawMessage, prefix, command, Params(tail), Trailing(tail))
  {
    CommandFacts(command);
    hide Params, Trailing, IsCommand, Find;
    SkipSpaces(n, command + tail);
    if tail == [] {
      NoTail();
      assert command + tail == command;
      NotFound(command);
    } else {
      FindAt(command, tail);
      assert (command + tail)[..|command|] == command && (command + tail)[|command|..] == tail;
    }
  }

  lemma NotFound(s: string)
    requires ' ' !in s
    ensures Find(s, ' ') == |s|
  {}

  lemma PrefixedParts(prefix: string, n: nat, part: string)
    requires ' ' !in prefix
    ensures var text := [':'] + prefix + Spaces(n + 1) + part;
            Parsed(text) == Some(Unprefixed(text, Some(prefix), Spaces(n + 1) + part))
  {
    hide Unprefixed, Find;
    var head, rest := [':'] + prefix, Spaces(n + 1) + part;
    var text := [':'] + prefix + Spaces(n + 1) + part;
    assert text == head + rest;
    FindAt(head, rest);
    assert text[1..|head|] == prefix && text[|head|..] == rest;
  }

  lemma GrammarFacts(w: Written)
    requires Grammatical(w)
    ensures |w.gaps| == |w.middles| && IsCommand(w.command) && (w.prefix.Some? ==> ' ' !in w.prefix.value)
    ensures w.command != [] && w.command[0] != ':' && (Tail(w) != [] ==> Tail(w)[0] == ' ')
  {
    CommandFacts(w.command);
    TailParts(w);
  }

  lemma PlainParts(part: string)
    requires part != [] && part[0] != ':'
    ensures Parsed(part) == Some(Unprefixed(part, None, Spaces(0) + part))
  {
    assert Spaces(0) + part == part;
  }

  lemma TextSplit(w: Written)
    requires |w.gaps| == |w.middles|
    ensures Text(w) == if w.prefix.Some? then [':'] + w.prefix.value + Spaces(w.lead + 1) + (w.command + Tail(w))
                       else w.command + Tail(w)
  {
    hide Tail, Spaces;
    if w.prefix.None? { assert [] + w.command + Tail(w) == w.command + Tail(w); }
  }

  /** Every message of the grammar is taken apart; the prefix, the command and
      the trailing part come back. */
  lemma ParsedParts(w: Written)
    requires Grammatical(w)
    ensures Parsed(Text(w)) ==
            Some(IrcMessage(Text(w), w.prefix, w.command, Params(Tail(w)), Trailing(Tail(w))))
  {
    hide *;
    GrammarFacts(w);
    TextSplit(w);
    var part := w.command + Tail(w);
    if w.prefix.Some? {
      PrefixedParts(w.prefix.value, w.lead, part);
      UnprefixedParts(Text(w), w.prefix, w.lead + 1, w.command, Tail(w));
    } else {
      PlainParts(part);
      UnprefixedParts(Text(w), w.prefix, 0, w.command, Tail(w));
    }
  }

  /** The parameters come out of the text in front of the trailing part. */
  lemma PartsAreParameters(w: Written)
    requires Grammatical(w)
    ensures Parsed(Text(w)).Some?
    ensures HasParts(Parsed(Text(w)).value, w) <==> Parameters(Words(w.middles, w.gaps) + Spaces(w.extra)) == w.middles
  {
    ParsedParts(w);
    TailParts(w);
    NoParts();
    assert Stripped([]) == [];
    hide Parsed, Text, Tail, Params, Trailing, Words, IsMiddle, IsCommand, Octets;
    var text := Words(w.middles, w.gaps) + Spaces(w.extra);
    assert text == [] ==> Parameters(text) == [];
  }

  lemma ParametersHaveNoSpace(s: string)
    ensures forall i :: 0 <= i < |Parameters(s)| ==> NoSpace(Parameters(s)[i])
  {
    hide Stripped, Parameters;
    ParametersAreFields(s);
  }

  /** The parser inverts the grammar if and only if no parameter contains a
      tab, vertical tab or form feed, which the grammar allows. */
  lemma ParserInvertsExactly(w: Written)
    requires Grammatical(w)
    ensures Parsed(Text(w)).Some?
    ensures HasParts(Parsed(Text(w)).value, w) <==> forall i :: 0 <= i < |w.middles| ==> NoSpace(w.middles[i])
  {
    PartsAreParameters(w);
    hide HasParts, Parsed, Text, Parameters, Words, NoSpace;
    ParametersHaveNoSpace(Words(w.middles, w.gaps) + Spaces(w.extra));
    if forall i :: 0 <= i < |w.middles| ==> NoSpace(w.middles[i]) {
      ParametersOfWords(w.middles, w.gaps, w.extra);
    }
  }

  /** Such a parameter comes back as two, with an empty one for a vertical tab
      at its start. */
  lemma OtherWhitespace()
    ensures Parameters(" a\tb") == ["a", "b"]
    ensures Parameters([' ', VERTICAL_TAB, 'a']) == ["", "a"]
  {
    hide Parameters, Fields, Stripped;
    TwoFields();
    OneField();
    StripExamples();
    ParametersAreFields(" a\tb");
    ParametersAreFields([' ', VERTICAL_TAB, 'a']);
  }

  lemma StripExamples()
    ensures Stripped(" a\tb") == "a\tb" && Stripped([' ', VERTICAL_TAB, 'a']) == [VERTICAL_TAB, 'a']
  {
    assert " a\tb"[1..] == "a\tb" && Chug("a\tb") == "a\tb" && Chomp("a\tb") == "a\tb";
    var u := [VERTICAL_TAB, 'a'];
    assert [' ', VERTICAL_TAB, 'a'][1..] == u && Chug(u) == u && Chomp(u) == u;
  }

  /** At the end of the trailing part a tab goes and a vertical tab stays. */
  lemma TrailingWhitespace()
    ensures Trailing(" :x\t") == Some("x") && Trailing([' ', ':', 'x', VERTICAL_TAB]) == Some(['x', VERTICAL_TAB])
  {
    var t, u := [' ', ':', 'x', VERTICAL_TAB], " :x\t";
    assert FindColon(t) == 0 && t[2..] == ['x', VERTICAL_TAB];
    assert FindColon(u) == 0 && u[2..] == "x\t" && "x\t"[..1] == "x";
  }

  lemma TwoFields()
    ensures Fields(" a\tb") == ["a", "b"]
  {
    var t, u := "a\tb", "\tb";
    SkipSpaces(1, t);
    assert Spaces(1) + t == " a\tb" && t == "a" + u;
    WordThen("a", u);
    assert t[..1] == "a" && t[1..] == u;
    assert u[1..] == "b" && Skip(u) == Skip("b") == "b";
    assert "b" + [] == "b";
    WordThen("b", []);
    assert "b"[..1] == "b" && "b"[1..] == [];
    assert Fields(u) == ["b"] + Fields([]);
  }

  lemma OneField()
    ensures Fields([' ', VERTICAL_TAB, 'a']) == ["a"]
  {
    var u := [' ', VERTICAL_TAB, 'a'];
    assert u[1..] == [VERTICAL_TAB, 'a'] && u[1..][1..] == "a";
    assert Skip(u) == Skip(u[1..]) == Skip("a") == "a";
    assert "a" + [] == "a";
    WordThen("a", []);
    assert "a"[..1] == "a" && "a"[1..] == [];
  }

  // ----- the user mask

  datatype IrcUserMask = IrcUserMask(nick: string, user: Option<string>, host: Option<string>)

  /** Copying a negative number of bytes asks for more memory than there is. */
  datatype MaskResult = NoPrefix | Mask(mask: IrcUserMask) | OutOfMemory

  method ParseIrcUserMask(prefix: Option<string>) returns (r: MaskResult)
    ensures prefix.None? <==> r.NoPrefix?
    ensures prefix.Some? ==>
              (r.OutOfMemory? <==> '@' in prefix.value && Find(prefix.value, '@') < Find(prefix.value, '!'))
    ensures prefix.Some? && r.Mask? ==> MaskText(r.mask) == prefix.value && MaskShape(r.mask)
  {
    if prefix.None? { return NoPrefix; }
    var text := prefix.value;
    var userStart, hostStart := Find(text, '!'), Find(text, '@');
    if userStart == |text| && hostStart == |text| {
      return Mask(IrcUserMask(text, None, None));
    }
    if userStart == |text| { return OutOfMemory; }
    var nick := text[..userStart];
    if hostStart < |text| {
      if hostStart - userStart - 1 < 0 { return OutOfMemory; }
      return Mask(IrcUserMask(nick, Some(text[userStart + 1..hostStart]), Some(text[hostStart + 1..])));
    }
    r := Mask(IrcUserMask(nick, Some(text[userStart + 1..]), None));
  }

  function MaskText(mask: IrcUserMask): string {
    mask.nick + (if mask.user.Some? then "!" + mask.user.value else []) + if mask.host.Some? then "@" + mask.host.value else []
  }

  /** The nick has no separators, and the user no `@`. */
  predicate MaskShape(mask: IrcUserMask) {
    && '!' !in mask.nick && '@' !in mask.nick
    && (mask.user.Some? ==> '@' !in mask.user.value)
    && (mask.host.Some? ==> mask.user.Some?)
  }

  /** A text is the mask of only one nick, user and host, so the method above
      recovers them. */
  lemma MaskUnique(a: IrcUserMask, b: IrcUserMask)
    requires MaskShape(a) && MaskShape(b) && MaskText(a) == MaskText(b)
    ensures a == b
  {
    MaskPositions(a);
    MaskPositions(b);
    var text, i, j := MaskText(a), Find(MaskText(a), '!'), Find(MaskText(a), '@');
    assert a.nick == text[..i] && b.nick == text[..i];
    if a.user.Some? && b.user.Some? {
      assert a.user.value == text[i + 1..j] && b.user.value == text[i + 1..j];
    }
    if a.host.Some? && b.host.Some? {
      assert a.host.value == text[j + 1..] && b.host.value == text[j + 1..];
    }
  }

  lemma MaskPositions(mask: IrcUserMask)
    requires MaskShape(mask)
    ensures var text := MaskText(mask);
            && Find(text, '!') == |mask.nick| && (mask.user.Some? <==> |mask.nick| < |text|)
            && Find(text, '@') == |mask.nick| + (if mask.user.Some? then 1 + |mask.user.value| else 0)
            && (mask.host.Some? <==> Find(text, '@') < |text|)
  {
    var text := MaskText(mask);
    assert text[..|mask.nick|] == mask.nick;
    if mask.user.Some? {
      assert text[|mask.nick|] == '!';
      assert text[|mask.nick| + 1..][..|mask.user.value|] == mask.user.value;
      if mask.host.Some? { assert text[|mask.nick| + 1 + |mask.user.value|] == '@'; }
    }
  }
}
