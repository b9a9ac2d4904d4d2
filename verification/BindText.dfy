/** `_to_positional` of `security/validated_query.py`: the text-level substitution of bind markers.

    The query is generated with a one-time marker for each placeholder. The generator's output is
    modelled as literal texts around the markers: `texts[0] marker texts[1] marker ... texts[n]`. */
module BindText {
  import opened Outcomes
  import opened Sequences
  import opened Values

  // ----- Markers

  function MarkerHead(nonce: string): string {
    "__bind_" + nonce + "_"
  }

  function Marker(nonce: string, k: nat): string {
    MarkerHead(nonce) + Numeral(k) + "__"
  }

  predicate HexDigit(c: char) {
    '0' <= c <= '9' || 'a' <= c <= 'f'
  }

  predicate IsNonceText(nonce: string) {
    forall i :: 0 <= i < |nonce| ==> HexDigit(nonce[i])
  }

  /** The characters a marker can contain. */
  predicate MarkerChar(c: char) {
    HexDigit(c) || c == '_' || c == 'i' || c == 'n'
  }

  predicate AllMarkerChars(s: string) {
    forall i :: 0 <= i < |s| ==> MarkerChar(s[i])
  }

  lemma MarkerChars(nonce: string, k: nat)
    requires IsNonceText(nonce)
    ensures AllMarkerChars(Marker(nonce, k)) && AllMarkerChars(MarkerHead(nonce))
  {
    NumeralDigits(k);
  }

  lemma MarkerInjective(nonce: string, j: nat, k: nat)
    requires Marker(nonce, j) == Marker(nonce, k)
    ensures j == k
  {
    var h := |MarkerHead(nonce)|;
    var a, b := Marker(nonce, j), Marker(nonce, k);
    assert a[h..|a| - 2] == Numeral(j) && b[h..|b| - 2] == Numeral(k);
    NumeralInjective(j, k);
  }

  // ----- Scanning: `re.findall` of the marker pattern

  function DigitRun(s: string): (n: nat)
    ensures n <= |s|
  {
    if s == "" || !IsDigit(s[0]) then 0 else 1 + DigitRun(s[1..])
  }

  /** The length of the pattern's match at the start of `s`, if it matches there. */
  function MarkerMatch(nonce: string, s: string): Option<nat>
    ensures MarkerMatch(nonce, s).Some? ==> 0 < MarkerMatch(nonce, s).value <= |s|
  {
    var head := MarkerHead(nonce);
    if !(head <= s) then None
    else
      var digits := DigitRun(s[|head|..]);
      DigitRunBound(s[|head|..]);
      var end := |head| + digits;
      if digits == 0 || !("__" <= s[end..]) then None else Some(end + 2)
  }

  lemma {:induction false} DigitRunBound(s: string)
    ensures DigitRun(s) <= |s|
    ensures forall i :: 0 <= i < DigitRun(s) ==> IsDigit(s[i])
  {
    if s != "" && IsDigit(s[0]) {
      DigitRunBound(s[1..]);
    }
  }

  /** All matches, from left to right, without overlap. */
  function FindAll(nonce: string, s: string): seq<string>
    decreases |s|
  {
    if s == "" then []
    else
      var m := MarkerMatch(nonce, s);
      if m.Some? then [s[..m.value]] + FindAll(nonce, s[m.value..])
      else FindAll(nonce, s[1..])
  }

  /** A marker that lacks its last one or two underscores. */
  predicate Unfinished(nonce: string, s: string) {
    var head := MarkerHead(nonce);
    && head <= s
    && var digits := DigitRun(s[|head|..]);
      && digits > 0
      && (s[|head|..][digits..] == "" || s[|head|..][digits..] == "_")
  }

  /** `text` cannot run into a marker that follows it: it does not end in an unfinished one. */
  predicate Delimits(nonce: string, text: string) {
    forall i :: 0 <= i <= |text| ==> !Unfinished(nonce, text[i..])
  }

  /** The digits at the start of a text do not reach into what follows, unless that starts with one. */
  lemma {:induction false} DigitRunStops(t: string, tail: string)
    requires tail != "" && !IsDigit(tail[0])
    ensures DigitRun(t + tail) == DigitRun(t)
  {
    if t == "" {
      assert t + tail == tail;
    } else if IsDigit(t[0]) {
      assert (t + tail)[1..] == t[1..] + tail;
      DigitRunStops(t[1..], tail);
    }
  }

  /** In a match of the pattern two underscores in a row, but for the first, are not followed by `b`. */
  lemma NoMarkerInside(nonce: string, s: string, p: nat)
    requires IsNonceText(nonce) && MarkerMatch(nonce, s).Some? && 0 < p && p + 2 < MarkerMatch(nonce, s).value
    requires s[p] == '_' && s[p + 1] == '_'
    ensures s[p + 2] != 'b'
  {
    var h, digits := |MarkerHead(nonce)|, DigitRun(s[|MarkerHead(nonce)|..]);
    HeadChars(nonce);
    DigitRunBound(s[h..]);
    assert forall i :: 0 <= i < h ==> s[i] == MarkerHead(nonce)[i];
    assert forall i :: 0 <= i < digits ==> s[h + i] == s[h..][i];
  }

  lemma HeadChars(nonce: string)
    ensures var head := MarkerHead(nonce);
      && |head| == |nonce| + 8
      && head[1] == '_' && head[2] == 'b' && head[3] == 'i' && head[4] == 'n' && head[5] == 'd' && head[6] == '_'
      && head[|head| - 1] == '_' && forall i :: 7 <= i < |head| - 1 ==> head[i] == nonce[i - 7]
  {
  }

  /** A text that delimits is not matched further when a marker follows it. */
  lemma MatchStops(nonce: string, t: string, tail: string)
    requires IsNonceText(nonce) && t != "" && Delimits(nonce, t) && MarkerHead(nonce) <= tail
    ensures MarkerMatch(nonce, t + tail) == MarkerMatch(nonce, t)
  {
    var s, head := t + tail, MarkerHead(nonce);
    var h := |head|;
    assert tail[0] == '_' && tail[1] == '_' && tail[2] == 'b';
    if MarkerMatch(nonce, t).Some? {
      MatchStays(nonce, t, tail);
    } else if MarkerMatch(nonce, s).Some? {
      var e := MarkerMatch(nonce, s).value;
      assert s[|t|] == '_' && s[|t| + 1] == '_' && s[|t| + 2] == 'b';
      if |t| + 2 < e {
        NoMarkerInside(nonce, s, |t|);
      } else {
        MatchReaches(nonce, t, tail);
      }
    }
  }

  lemma MatchStays(nonce: string, t: string, tail: string)
    requires MarkerMatch(nonce, t).Some? && tail != "" && !IsDigit(tail[0])
    ensures MarkerMatch(nonce, t + tail) == MarkerMatch(nonce, t)
  {
    var h := |MarkerHead(nonce)|;
    assert (t + tail)[h..] == t[h..] + tail;
    DigitRunStops(t[h..], tail);
    DigitRunBound(t[h..]);
    var end := h + DigitRun(t[h..]);
    assert (t + tail)[end..] == t[end..] + tail;
  }

  /** A match that reaches one or two characters into what follows leaves an unfinished marker; one
      that does not reach it was there before. */
  lemma MatchReaches(nonce: string, t: string, tail: string)
    requires MarkerMatch(nonce, t + tail).Some? && MarkerMatch(nonce, t + tail).value <= |t| + 2
    requires tail != "" && !IsDigit(tail[0])
    ensures MarkerMatch(nonce, t).Some? || Unfinished(nonce, t[0..])
  {
    var s, h := t + tail, |MarkerHead(nonce)|;
    DigitRunBound(s[h..]);
    assert h < |t| && MarkerHead(nonce) <= t;
    assert s[h..] == t[h..] + tail && t[0..] == t;
    DigitRunStops(t[h..], tail);
    var digits := DigitRun(t[h..]);
    var u := t[h..][digits..];
    assert s[h + digits..] == u + tail && t[h + digits..] == u;
    EndReaches(u, tail);
  }

  /** Two underscores at the start of a text and its tail are in the text, or it is shorter. */
  lemma EndReaches(u: string, tail: string)
    requires "__" <= u + tail
    ensures "__" <= u || u == "" || u == "_"
  {
    if |u| >= 1 {
      assert u[0] == (u + tail)[0] == '_';
    }
    if |u| >= 2 {
      assert u[1] == (u + tail)[1] == '_';
    } else if |u| == 1 {
      assert u == [u[0]];
    }
  }

  lemma DelimitsRest(nonce: string, t: string, n: nat)
    requires Delimits(nonce, t) && n <= |t|
    ensures Delimits(nonce, t[n..])
  {
    forall i | 0 <= i <= |t[n..]|
      ensures !Unfinished(nonce, t[n..][i..])
    {
      assert t[n..][i..] == t[n + i..];
    }
  }

  lemma {:induction false} FindInText(nonce: string, t: string, tail: string)
    requires IsNonceText(nonce) && Delimits(nonce, t) && MarkerHead(nonce) <= tail
    ensures FindAll(nonce, t + tail) == FindAll(nonce, t) + FindAll(nonce, tail)
    decreases |t|
  {
    if t == "" {
      assert t + tail == tail;
    } else {
      MatchStops(nonce, t, tail);
      var m := MarkerMatch(nonce, t);
      var n := if m.Some? then m.value else 1;
      TextStep(t, tail, n);
      DelimitsRest(nonce, t, n);
      FindInText(nonce, t[n..], tail);
      FindStep(nonce, t);
      FindStep(nonce, t + tail);
      FindsAssociate([t[..n]], FindAll(nonce, t[n..]), FindAll(nonce, tail));
    }
  }

  lemma TextStep(t: string, tail: string, n: nat)
    requires n <= |t|
    ensures (t + tail)[n..] == t[n..] + tail && (t + tail)[..n] == t[..n]
  {
  }

  lemma FindStep(nonce: string, s: string)
    requires s != ""
    ensures var m := MarkerMatch(nonce, s);
      FindAll(nonce, s) == if m.Some? then [s[..m.value]] + FindAll(nonce, s[m.value..]) else FindAll(nonce, s[1..])
  {
  }

  lemma FindsAssociate(a: seq<string>, b: seq<string>, c: seq<string>)
    ensures a + (b + c) == (a + b) + c
  {
  }

  lemma {:induction false} DigitRunOf(digits: string, tail: string)
    requires forall i :: 0 <= i < |digits| ==> IsDigit(digits[i])
    requires tail != "" && !IsDigit(tail[0])
    ensures DigitRun(digits + tail) == |digits|
  {
    if digits == "" {
      assert digits + tail == tail;
    } else {
      assert (digits + tail)[1..] == digits[1..] + tail;
      DigitRunOf(digits[1..], tail);
    }
  }

  lemma MarkerMatches(nonce: string, k: nat, tail: string)
    ensures MarkerMatch(nonce, Marker(nonce, k) + tail) == Some(|Marker(nonce, k)|)
  {
    var head := MarkerHead(nonce);
    NumeralDigits(k);
    var s := Marker(nonce, k) + tail;
    assert s[|head|..] == Numeral(k) + ("__" + tail);
    DigitRunOf(Numeral(k), "__" + tail);
    assert s[|head| + |Numeral(k)|..] == "__" + tail;
  }

  lemma FindMarker(nonce: string, k: nat, tail: string)
    ensures FindAll(nonce, Marker(nonce, k) + tail) == [Marker(nonce, k)] + FindAll(nonce, tail)
  {
    MarkerMatches(nonce, k, tail);
    var s := Marker(nonce, k) + tail;
    assert s[..|Marker(nonce, k)|] == Marker(nonce, k) && s[|Marker(nonce, k)|..] == tail;
  }

  // ----- The generated text

  function Assemble(texts: seq<string>, pieces: seq<string>): string
    requires |texts| == |pieces| + 1
  {
    if pieces == [] then texts[0] else texts[0] + pieces[0] + Assemble(texts[1..], pieces[1..])
  }

  function Markers(nonce: string, order: seq<nat>): seq<string> {
    seq(|order|, i requires 0 <= i < |order| => Marker(nonce, order[i]))
  }

  /** Each text that is followed by a marker delimits it. */
  predicate AllDelimit(nonce: string, texts: seq<string>) {
    forall i :: 0 <= i < |texts| - 1 ==> Delimits(nonce, texts[i])
  }

  ghost function Stray(nonce: string, texts: seq<string>): nat {
    if texts == [] then 0 else |FindAll(nonce, texts[0])| + Stray(nonce, texts[1..])
  }

  /** The scan finds the rendered markers and whatever the texts themselves contain. */
  lemma {:induction false} FindAssembled(nonce: string, texts: seq<string>, order: seq<nat>)
    requires IsNonceText(nonce) && |texts| == |order| + 1 && AllDelimit(nonce, texts)
    ensures var found := FindAll(nonce, Assemble(texts, Markers(nonce, order)));
      && |found| == |order| + Stray(nonce, texts)
      && (Stray(nonce, texts) == 0 ==> found == Markers(nonce, order))
  {
    if order != [] {
      var rest := Assemble(texts[1..], Markers(nonce, order[1..]));
      assert Markers(nonce, order)[1..] == Markers(nonce, order[1..]);
      FindAssembled(nonce, texts[1..], order[1..]);
      assert texts[0] + Marker(nonce, order[0]) + rest == texts[0] + (Marker(nonce, order[0]) + rest);
      FindInText(nonce, texts[0], Marker(nonce, order[0]) + rest);
      FindMarker(nonce, order[0], rest);
      assert Markers(nonce, order) == [Marker(nonce, order[0])] + Markers(nonce, order[1..]);
    }
  }

  // ----- Replacing

  predicate OccursAt(pattern: string, s: string, i: nat) {
    i + |pattern| <= |s| && s[i..i + |pattern|] == pattern
  }

  lemma OccursInRest(pattern: string, s: string, i: nat)
    requires s != "" && i > 0
    ensures OccursAt(pattern, s[1..], i - 1) <==> OccursAt(pattern, s, i)
  {
    if i + |pattern| <= |s| {
      assert s[1..][i - 1..i - 1 + |pattern|] == s[i..i + |pattern|];
    }
  }

  /** `s.replace(pattern, bind, 1)` */
  function ReplaceFirst(s: string, pattern: string, bind: string): string {
    if OccursAt(pattern, s, 0) then bind + s[|pattern|..]
    else if s == "" then s
    else [s[0]] + ReplaceFirst(s[1..], pattern, bind)
  }

  function ReplaceEach(s: string, patterns: seq<string>, bind: string): string
    decreases |patterns|
  {
    if patterns == [] then s else ReplaceEach(ReplaceFirst(s, patterns[0], bind), patterns[1..], bind)
  }

  lemma {:induction false} ReplaceFirstAt(before: string, pattern: string, after: string, bind: string)
    requires pattern != "" && forall i: nat :: i < |before| ==> !OccursAt(pattern, before + pattern + after, i)
    ensures ReplaceFirst(before + pattern + after, pattern, bind) == before + bind + after
  {
    var s := before + pattern + after;
    if before == "" {
      assert s == pattern + after && s[0..|pattern|] == pattern;
    } else {
      assert !OccursAt(pattern, s, 0);
      assert s[1..] == before[1..] + pattern + after;
      forall i: nat | i < |before[1..]|
        ensures !OccursAt(pattern, before[1..] + pattern + after, i)
      {
        OccursInRest(pattern, s, i + 1);
      }
      ReplaceFirstAt(before[1..], pattern, after, bind);
    }
  }

  /** No marker occurs anywhere in `s`. */
  ghost predicate MarkerFree(nonce: string, s: string) {
    forall k: nat, i: nat :: !OccursAt(Marker(nonce, k), s, i)
  }

  lemma {:induction false} UnmatchedIsFree(nonce: string, s: string, k: nat, i: nat)
    requires FindAll(nonce, s) == []
    ensures !OccursAt(Marker(nonce, k), s, i)
    decreases |s|
  {
    var m := Marker(nonce, k);
    if s != "" {
      if i > 0 {
        UnmatchedIsFree(nonce, s[1..], k, i - 1);
        OccursInRest(m, s, i);
      } else if |m| <= |s| {
        MarkerMatches(nonce, k, s[|m|..]);
        assert s == s[..|m|] + s[|m|..] && s[0..|m|] == s[..|m|];
      }
    }
  }

  predicate NoMarkerChars(s: string) {
    forall i :: 0 <= i < |s| ==> !MarkerChar(s[i])
  }

  /** An occurrence of a marker holds none but marker characters. */
  lemma OccurrenceChars(nonce: string, k: nat, s: string, i: nat)
    requires IsNonceText(nonce) && OccursAt(Marker(nonce, k), s, i)
    ensures forall at :: i <= at < i + |Marker(nonce, k)| ==> MarkerChar(s[at])
  {
    MarkerChars(nonce, k);
    var m := Marker(nonce, k);
    forall at | i <= at < i + |m|
      ensures MarkerChar(s[at])
    {
      assert s[i..i + |m|][at - i] == s[at];
    }
  }

  /** Writing a bind marker between two marker-free texts creates no marker. */
  lemma FreeAcrossBind(nonce: string, u: string, bind: string, t: string)
    requires IsNonceText(nonce) && bind != "" && NoMarkerChars(bind)
    requires MarkerFree(nonce, u) && MarkerFree(nonce, t)
    ensures MarkerFree(nonce, u + bind + t)
  {
    var s := u + bind + t;
    forall k: nat, i: nat
      ensures !OccursAt(Marker(nonce, k), s, i)
    {
      var m := Marker(nonce, k);
      assert !OccursAt(m, u, i);
      assert i + |m| <= |u| ==> s[i..i + |m|] == u[i..i + |m|];
      assert s[|u|] == bind[0] && s[|u| + |bind| - 1] == bind[|bind| - 1];
      if i >= |u| + |bind| {
        var i' := i - |u| - |bind|;
        assert !OccursAt(m, t, i');
        assert i + |m| <= |s| ==> s[i..i + |m|] == t[i'..i' + |m|];
      } else if OccursAt(m, s, i) && i > |u| {
        assert s[i] == bind[i - |u|];
        OccurrenceChars(nonce, k, s, i);
      } else if OccursAt(m, s, i) && i + |m| > |u| {
        OccurrenceChars(nonce, k, s, i);
      }
    }
  }

  function Binds(bind: string, n: nat): seq<string> {
    seq(n, _ => bind)
  }

  lemma FirstOccurrence(nonce: string, v: string, k: nat, rest: string)
    requires IsNonceText(nonce) && Delimits(nonce, v) && MarkerFree(nonce, v)
    ensures forall i: nat :: i < |v| ==> !OccursAt(Marker(nonce, k), v + Marker(nonce, k) + rest, i)
  {
    forall i: nat | i < |v|
      ensures !OccursAt(Marker(nonce, k), v + Marker(nonce, k) + rest, i)
    {
      if OccursAt(Marker(nonce, k), v + Marker(nonce, k) + rest, i) {
        OccursInside(nonce, v, k, rest, i);
      }
    }
  }

  /** A marker that starts in a text that delimits lies inside it. */
  lemma OccursInside(nonce: string, v: string, k: nat, rest: string, i: nat)
    requires IsNonceText(nonce) && Delimits(nonce, v) && i < |v|
    requires OccursAt(Marker(nonce, k), v + Marker(nonce, k) + rest, i)
    ensures OccursAt(Marker(nonce, k), v, i)
  {
    var m := Marker(nonce, k);
    OccurrenceSplits(v, m, rest, i);
    MarkerMatches(nonce, k, (v + m + rest)[i + |m|..]);
    DelimitsRest(nonce, v, i);
    MatchStops(nonce, v[i..], m + rest);
    PrefixInside(v[i..], m, m + rest);
    assert v[i..i + |m|] == v[i..][..|m|];
  }

  lemma OccurrenceSplits(v: string, m: string, rest: string, i: nat)
    requires i < |v| && OccursAt(m, v + m + rest, i)
    ensures v[i..] + (m + rest) == m + (v + m + rest)[i + |m|..]
  {
    var s := v + m + rest;
    assert s[i..] == v[i..] + (m + rest) && s[i..] == s[i..i + |m|] + s[i + |m|..];
  }

  lemma PrefixInside(t: string, m: string, tail: string)
    requires m <= t + tail && |m| <= |t|
    ensures t[..|m|] == m
  {
    assert t[..|m|] == (t + tail)[..|m|];
  }

  /** Nothing of a marker is at the end. */
  predicate Closed(s: string) {
    s == "" || !MarkerChar(s[|s| - 1])
  }

  lemma UnfinishedChars(nonce: string, s: string)
    requires IsNonceText(nonce) && Unfinished(nonce, s)
    ensures AllMarkerChars(s)
  {
    var h := |MarkerHead(nonce)|;
    MarkerChars(nonce, 0);
    DigitRunBound(s[h..]);
    var digits := DigitRun(s[h..]);
    forall i | 0 <= i < |s|
      ensures MarkerChar(s[i])
    {
      if i < h {
        assert s[i] == MarkerHead(nonce)[i];
      } else if i < h + digits {
        assert s[i] == s[h..][i - h];
      } else {
        assert s[i] == s[h..][digits..][i - h - digits];
      }
    }
  }

  lemma DelimitsAcross(nonce: string, u: string, t: string)
    requires IsNonceText(nonce) && Closed(u) && Delimits(nonce, t)
    ensures Delimits(nonce, u + t)
  {
    forall i | 0 <= i <= |u + t|
      ensures !Unfinished(nonce, (u + t)[i..])
    {
      if i >= |u| {
        assert (u + t)[i..] == t[i - |u|..];
      } else if Unfinished(nonce, (u + t)[i..]) {
        UnfinishedChars(nonce, (u + t)[i..]);
        LastOfFirst(u, t, i);
      }
    }
  }

  lemma LastOfFirst(u: string, t: string, i: nat)
    requires i < |u| && AllMarkerChars((u + t)[i..])
    ensures MarkerChar(u[|u| - 1])
  {
    assert (u + t)[i..][|u| - 1 - i] == u[|u| - 1];
  }

  lemma AssembleFirst(u: string, texts: seq<string>, pieces: seq<string>)
    requires |texts| == |pieces| + 1 && pieces != []
    ensures u + Assemble(texts, pieces) == u + texts[0] + pieces[0] + Assemble(texts[1..], pieces[1..])
  {
  }

  lemma NoMatchesNoMarkers(nonce: string, t: string)
    requires FindAll(nonce, t) == []
    ensures MarkerFree(nonce, t)
  {
    forall k: nat, i: nat {
      UnmatchedIsFree(nonce, t, k, i);
    }
  }

  /** Replacing the markers one at a time, by first occurrence, is replacing each at its place. */
  lemma {:induction false} ReplaceEachAssembled(nonce: string, u: string, texts: seq<string>, order: seq<nat>,
      bind: string)
    requires IsNonceText(nonce) && bind != "" && NoMarkerChars(bind)
    requires |texts| == |order| + 1 && AllDelimit(nonce, texts) && Closed(u) && MarkerFree(nonce, u + texts[0])
    requires forall i :: 0 <= i < |texts| ==> FindAll(nonce, texts[i]) == []
    ensures ReplaceEach(u + Assemble(texts, Markers(nonce, order)), Markers(nonce, order), bind)
         == u + Assemble(texts, Binds(bind, |order|))
    decreases |order|
  {
    if order != [] {
      var v, m := u + texts[0], Marker(nonce, order[0]);
      var rest := Assemble(texts[1..], Markers(nonce, order[1..]));
      assert Markers(nonce, order) == [m] + Markers(nonce, order[1..]);
      assert Binds(bind, |order|) == [bind] + Binds(bind, |order[1..]|);
      AssembleFirst(u, texts, Markers(nonce, order));
      AssembleFirst(u, texts, Binds(bind, |order|));
      DelimitsAcross(nonce, u, texts[0]);
      FirstOccurrence(nonce, v, order[0], rest);
      ReplaceFirstAt(v, m, rest, bind);
      NoMatchesNoMarkers(nonce, texts[1]);
      FreeAcrossBind(nonce, v, bind, texts[1]);
      assert Closed(v + bind) by {
        assert (v + bind)[|v + bind| - 1] == bind[|bind| - 1];
      }
      ReplaceEachAssembled(nonce, v + bind, texts[1..], order[1..], bind);
    }
  }

  // ----- Percent signs

  /** `s.replace("%", "%%")` */
  function Escape(s: string): string {
    if s == "" then "" else (if s[0] == '%' then "%%" else [s[0]]) + Escape(s[1..])
  }

  function EscapeAll(texts: seq<string>): seq<string> {
    seq(|texts|, i requires 0 <= i < |texts| => Escape(texts[i]))
  }

  lemma {:induction false} EscapeAppend(a: string, b: string)
    ensures Escape(a + b) == Escape(a) + Escape(b)
  {
    if a == "" {
      assert a + b == b;
    } else {
      assert (a + b)[1..] == a[1..] + b;
      EscapeAppend(a[1..], b);
    }
  }

  lemma {:induction false} EscapeMarkerText(s: string)
    requires AllMarkerChars(s)
    ensures Escape(s) == s
  {
    if s != "" {
      EscapeMarkerText(s[1..]);
    }
  }

  lemma PercentThere(t: string, i: nat)
    requires t != "" && t[0] == '%' && i < 2
    ensures i < |Escape(t)| && '%' in Escape(t)[i..]
  {
    assert Escape(t)[i..][0] == '%';
  }

  lemma PercentFirst(t: string)
    requires t != "" && t[0] == '%'
    ensures '%' in Escape(t)
  {
    PercentThere(t, 0);
    assert Escape(t)[0..] == Escape(t);
  }

  lemma {:induction false} EscapeNothing(t: string)
    requires '%' !in Escape(t)
    ensures Escape(t) == t
  {
    if t != "" {
      if t[0] == '%' {
        PercentFirst(t);
      } else {
        EscapeNothing(t[1..]);
      }
    }
  }

  /** An end of the escaped text without percent signs is an end of the text. */
  lemma {:induction false} EscapeEnd(t: string, i: nat) returns (j: nat)
    requires i <= |Escape(t)| && '%' !in Escape(t)[i..]
    ensures j <= |t| && t[j..] == Escape(t)[i..]
  {
    var n := if t != "" && t[0] == '%' then 2 else 1;
    if t == "" {
      return 0;
    }
    if i < 2 && t[0] == '%' {
      PercentThere(t, i);
    } else if i >= n {
      assert Escape(t)[n..] == Escape(t[1..]);
      assert Escape(t)[n..][i - n..] == Escape(t)[i..];
      j := EscapeEnd(t[1..], i - n);
      assert t[1..][j..] == t[j + 1..];
      return j + 1;
    } else {
      assert Escape(t)[i..] == Escape(t);
      EscapeNothing(t);
      assert t[0..] == t;
      return 0;
    }
  }

  /** Escaping neither makes nor hides an unfinished marker. */
  lemma EscapeDelimits(nonce: string, t: string)
    requires IsNonceText(nonce) && Delimits(nonce, t)
    ensures Delimits(nonce, Escape(t))
  {
    forall i | 0 <= i <= |Escape(t)|
      ensures !Unfinished(nonce, Escape(t)[i..])
    {
      if Unfinished(nonce, Escape(t)[i..]) {
        var j := UnfinishedBefore(nonce, t, i);
      }
    }
  }

  lemma UnfinishedBefore(nonce: string, t: string, i: nat) returns (j: nat)
    requires IsNonceText(nonce) && i <= |Escape(t)| && Unfinished(nonce, Escape(t)[i..])
    ensures j <= |t| && Unfinished(nonce, t[j..])
  {
    UnfinishedChars(nonce, Escape(t)[i..]);
    j := EscapeEnd(t, i);
  }

  lemma {:induction false} EscapeAssembled(nonce: string, texts: seq<string>, order: seq<nat>)
    requires IsNonceText(nonce) && |texts| == |order| + 1
    ensures Escape(Assemble(texts, Markers(nonce, order))) == Assemble(EscapeAll(texts), Markers(nonce, order))
  {
    if order == [] {
    } else {
      var m, rest := Marker(nonce, order[0]), Assemble(texts[1..], Markers(nonce, order[1..]));
      assert Markers(nonce, order)[1..] == Markers(nonce, order[1..]);
      assert EscapeAll(texts)[1..] == EscapeAll(texts[1..]);
      EscapeAssembled(nonce, texts[1..], order[1..]);
      MarkerChars(nonce, order[0]);
      EscapeMarkerText(m);
      EscapeAppend(texts[0] + m, rest);
      EscapeAppend(texts[0], m);
    }
  }

  /** What a driver sends: literal characters and bound values. */
  datatype Piece = Char(c: char) | Bound(v: Value)

  function Chars(s: string): seq<Piece> {
    seq(|s|, i requires 0 <= i < |s| => Char(s[i]))
  }

  /** A driver's left-to-right formatting: `%%` is a percent sign, `%s` takes the next value, any
      other directive fails, and so do missing or unused values. */
  function Format(s: string, values: seq<Value>): Option<seq<Piece>>
    decreases |s|
  {
    if s == "" then (if values == [] then Some([]) else None)
    else if s[0] != '%' then Prepend(Char(s[0]), Format(s[1..], values))
    else if |s| == 1 then None
    else if s[1] == '%' then Prepend(Char('%'), Format(s[2..], values))
    else if s[1] == 's' && values != [] then Prepend(Bound(values[0]), Format(s[2..], values[1..]))
    else None
  }

  function Prepend(p: Piece, rest: Option<seq<Piece>>): Option<seq<Piece>> {
    if rest.None? then None else Some([p] + rest.value)
  }

  /** The texts with the values between them. */
  function Interleave(texts: seq<string>, values: seq<Value>): seq<Piece>
    requires |texts| == |values| + 1
  {
    if values == [] then Chars(texts[0]) else Chars(texts[0]) + [Bound(values[0])] + Interleave(texts[1..], values[1..])
  }

  lemma FormatFirst(c: char, tail: string, values: seq<Value>)
    ensures Format((if c == '%' then "%%" else [c]) + tail, values) == Prepend(Char(c), Format(tail, values))
  {
    var s := (if c == '%' then "%%" else [c]) + tail;
    if c == '%' {
      assert s[0] == '%' && s[1] == '%' && s[2..] == tail;
    } else {
      assert s[0] == c && s[1..] == tail;
    }
  }

  lemma EscapeFirst(t: string, rest: string)
    requires t != ""
    ensures Escape(t) + rest == (if t[0] == '%' then "%%" else [t[0]]) + (Escape(t[1..]) + rest)
  {
  }

  lemma CharsFirst(t: string, rest: seq<Piece>)
    requires t != ""
    ensures Chars(t) + rest == [Char(t[0])] + (Chars(t[1..]) + rest)
  {
    assert Chars(t) == [Char(t[0])] + Chars(t[1..]);
  }

  lemma {:induction false} FormatEscaped(t: string, rest: string, values: seq<Value>)
    ensures Format(Escape(t) + rest, values) ==
            if Format(rest, values).None? then None else Some(Chars(t) + Format(rest, values).value)
  {
    if t == "" {
      assert Escape(t) + rest == rest;
      assert Format(rest, values).Some? ==> Chars(t) + Format(rest, values).value == Format(rest, values).value;
    } else {
      FormatEscaped(t[1..], rest, values);
      FormatFirst(t[0], Escape(t[1..]) + rest, values);
      EscapeFirst(t, rest);
      if Format(rest, values).Some? {
        CharsFirst(t, Format(rest, values).value);
      }
    }
  }

  /** MAIN RESULT. A driver that formats the escaped text uses up exactly the values, in order, and
      reproduces every literal character, percent signs included, whatever the texts are. */
  lemma {:induction false} PercentRoundTrip(texts: seq<string>, values: seq<Value>)
    requires |texts| == |values| + 1
    ensures Format(Assemble(EscapeAll(texts), Binds("%s", |values|)), values) == Some(Interleave(texts, values))
  {
    if values == [] {
      assert Escape(texts[0]) + "" == Escape(texts[0]);
      FormatEscaped(texts[0], "", []);
      assert Chars(texts[0]) + [] == Chars(texts[0]);
    } else {
      var rest := Assemble(EscapeAll(texts[1..]), Binds("%s", |values[1..]|));
      PercentRoundTrip(texts[1..], values[1..]);
      assert EscapeAll(texts)[1..] == EscapeAll(texts[1..]);
      assert Binds("%s", |values|) == ["%s"] + Binds("%s", |values[1..]|);
      assert Escape(texts[0]) + "%s" + rest == Escape(texts[0]) + ("%s" + rest);
      assert ("%s" + rest)[2..] == rest && ("%s" + rest)[0] == '%' && ("%s" + rest)[1] == 's';
      FormatEscaped(texts[0], "%s" + rest, values);
      assert Chars(texts[0]) + ([Bound(values[0])] + Interleave(texts[1..], values[1..])) == Interleave(texts, values);
    }
  }

  // ----- The whole substitution

  datatype Dialect = Dialect(hasSchema: bool, bindMarker: string, escapePercent: bool)

  const SQLSERVER := Dialect(true, "?", false)

  /** The generated text: `order[i]` is the number of the placeholder whose marker stands between
      `texts[i]` and `texts[i + 1]`. */
  datatype Rendering = Rendering(texts: seq<string>, order: seq<nat>)

  /** The generator writes one marker for each of the `n` placeholders. */
  predicate Rendered(r: Rendering, n: nat) {
    |r.order| == n && |r.texts| == n + 1 && forall i :: 0 <= i < n ==> r.order[i] < n
  }

  /** The placeholder name behind each of the first `n` markers. */
  function MarkerNames(nonce: string, names: seq<string>, n: nat): map<string, string>
    requires n <= |names|
  {
    if n == 0 then map[] else MarkerNames(nonce, names, n - 1)[Marker(nonce, n - 1) := names[n - 1]]
  }

  lemma {:induction false} MarkerNamesHold(nonce: string, names: seq<string>, n: nat)
    requires n <= |names|
    ensures forall k: nat :: Marker(nonce, k) in MarkerNames(nonce, names, n) <==> k < n
    ensures forall k: nat :: k < n ==> MarkerNames(nonce, names, n)[Marker(nonce, k)] == names[k]
    ensures forall m :: m in MarkerNames(nonce, names, n) ==> MarkerNames(nonce, names, n)[m] in names
  {
    if n > 0 {
      MarkerNamesHold(nonce, names, n - 1);
      forall k: nat | Marker(nonce, k) == Marker(nonce, n - 1)
        ensures k == n - 1
      {
        MarkerInjective(nonce, k, n - 1);
      }
    }
  }

  predicate AllBound(names: seq<string>, parameters: map<string, Value>) {
    forall i :: 0 <= i < |names| ==> names[i] in parameters
  }

  function Generated(nonce: string, r: Rendering, dialect: Dialect): string
    requires |r.texts| == |r.order| + 1
  {
    var sql := Assemble(r.texts, Markers(nonce, r.order));
    if dialect.escapePercent then Escape(sql) else sql
  }

  /** The markers found are the markers written, and as many. */
  predicate MarkerGuard(found: seq<string>, markers: map<string, string>) {
    |found| == |markers| && (set i | 0 <= i < |found| :: found[i]) == markers.Keys
  }

  function ToPositional(nonce: string, r: Rendering, names: seq<string>, parameters: map<string, Value>,
                        dialect: Dialect): Result<(string, seq<Value>)>
    requires Rendered(r, |names|) && AllBound(names, parameters)
  {
    var sql := Generated(nonce, r, dialect);
    var found := FindAll(nonce, sql);
    var markers := MarkerNames(nonce, names, |names|);
    MarkerNamesHold(nonce, names, |names|);
    if !MarkerGuard(found, markers) then Rejected(BindUnsafe)
    else
      Ok((ReplaceEach(sql, found, dialect.bindMarker),
          seq(|found|, i requires 0 <= i < |found| => Lookup(found[i], found, markers, parameters))))
  }

  function Lookup(marker: string, found: seq<string>, markers: map<string, string>,
                  parameters: map<string, Value>): Value
    requires marker in found && MarkerGuard(found, markers)
    requires forall m :: m in markers ==> markers[m] in parameters
  {
    parameters[markers[marker]]
  }

  lemma {:induction false} MarkerNamesSize(nonce: string, names: seq<string>, n: nat)
    requires n <= |names|
    ensures |MarkerNames(nonce, names, n)| == n
  {
    if n > 0 {
      MarkerNamesSize(nonce, names, n - 1);
      MarkerNamesHold(nonce, names, n - 1);
    }
  }

  function WrittenTexts(r: Rendering, dialect: Dialect): seq<string> {
    if dialect.escapePercent then EscapeAll(r.texts) else r.texts
  }

  lemma GeneratedText(nonce: string, r: Rendering, dialect: Dialect)
    requires IsNonceText(nonce) && |r.texts| == |r.order| + 1 && AllDelimit(nonce, r.texts)
    ensures Generated(nonce, r, dialect) == Assemble(WrittenTexts(r, dialect), Markers(nonce, r.order))
    ensures AllDelimit(nonce, WrittenTexts(r, dialect))
  {
    EscapeAssembled(nonce, r.texts, r.order);
    forall i | 0 <= i < |r.texts| - 1 {
      EscapeDelimits(nonce, r.texts[i]);
    }
  }

  lemma {:induction false} NoStrays(nonce: string, texts: seq<string>)
    ensures Stray(nonce, texts) == 0 <==> forall i :: 0 <= i < |texts| ==> FindAll(nonce, texts[i]) == []
  {
    if texts != [] {
      NoStrays(nonce, texts[1..]);
      assert forall i :: 1 <= i < |texts| ==> texts[i] == texts[1..][i - 1];
      assert forall i :: 0 <= i < |texts[1..]| ==> texts[1..][i] == texts[i + 1];
    }
  }

  predicate Permutes(order: seq<nat>, n: nat) {
    |order| == n && forall k: nat :: k < n ==> k in order
  }

  predicate SafeBind(dialect: Dialect) {
    dialect.bindMarker != "" && NoMarkerChars(dialect.bindMarker)
  }

  /** MAIN RESULT. When no text before a marker ends in an unfinished marker, the guard passes iff no
      text contains a marker and every placeholder was written; then the one-by-one replacement is the
      simultaneous one, and the i-th parameter is the value of the i-th placeholder in the text. */
  lemma BindSubstitutionIsSimultaneous(nonce: string, r: Rendering, names: seq<string>, parameters: map<string, Value>,
                                       dialect: Dialect)
    requires IsNonceText(nonce) && SafeBind(dialect) && AllDelimit(nonce, r.texts)
    requires Rendered(r, |names|) && AllBound(names, parameters)
    ensures ToPositional(nonce, r, names, parameters, dialect).Ok? <==>
            Permutes(r.order, |names|) && Stray(nonce, WrittenTexts(r, dialect)) == 0
    ensures ToPositional(nonce, r, names, parameters, dialect).Ok? ==>
      var (sql, values) := ToPositional(nonce, r, names, parameters, dialect).value;
      && sql == Assemble(WrittenTexts(r, dialect), Binds(dialect.bindMarker, |names|))
      && |values| == |names|
      && forall i :: 0 <= i < |values| ==> values[i] == parameters[names[r.order[i]]]
  {
    var texts, n := WrittenTexts(r, dialect), |names|;
    var markers := MarkerNames(nonce, names, n);
    var written := Markers(nonce, r.order);
    GeneratedText(nonce, r, dialect);
    FindAssembled(nonce, texts, r.order);
    MarkerNamesHold(nonce, names, n);
    MarkerNamesSize(nonce, names, n);
    NoStrays(nonce, texts);
    if Stray(nonce, texts) == 0 {
      WrittenMarkers(nonce, names, r.order);
      NoMatchesNoMarkers(nonce, texts[0]);
      assert "" + texts[0] == texts[0];
      ReplaceEachAssembled(nonce, "", texts, r.order, dialect.bindMarker);
      assert "" + Assemble(texts, written) == Assemble(texts, written);
    }
  }

  lemma {:induction false} MarkerKeys(nonce: string, names: seq<string>, n: nat)
    requires n <= |names|
    ensures forall m :: m in MarkerNames(nonce, names, n) ==> exists k: nat :: k < n && m == Marker(nonce, k)
  {
    if n > 0 {
      MarkerKeys(nonce, names, n - 1);
    }
  }

  lemma WrittenInOrder(nonce: string, order: seq<nat>, k: nat)
    ensures Marker(nonce, k) in Markers(nonce, order) <==> k in order
  {
    var written := Markers(nonce, order);
    if Marker(nonce, k) in written {
      var i :| 0 <= i < |written| && written[i] == Marker(nonce, k);
      MarkerInjective(nonce, order[i], k);
    }
    if k in order {
      var i :| 0 <= i < |order| && order[i] == k;
      assert written[i] == Marker(nonce, k);
    }
  }

  /** The guard on the written markers says that every placeholder was written. */
  lemma WrittenMarkers(nonce: string, names: seq<string>, order: seq<nat>)
    requires |order| == |names| && forall i :: 0 <= i < |order| ==> order[i] < |names|
    ensures MarkerGuard(Markers(nonce, order), MarkerNames(nonce, names, |names|)) <==> Permutes(order, |names|)
  {
    var n, written := |names|, Markers(nonce, order);
    var markers, found := MarkerNames(nonce, names, n), set i | 0 <= i < |written| :: written[i];
    MarkerNamesHold(nonce, names, n);
    MarkerNamesSize(nonce, names, n);
    MarkerKeys(nonce, names, n);
    forall k: nat {
      WrittenInOrder(nonce, order, k);
    }
    assert forall m :: m in found <==> m in written;
    assert found <= markers.Keys;
    if Permutes(order, n) {
      assert markers.Keys <= found;
    }
  }

  lemma {:induction false} ShortTextHasNoMarker(nonce: string, s: string)
    requires |s| < |MarkerHead(nonce)| + 3
    ensures FindAll(nonce, s) == []
    decreases |s|
  {
    if s != "" {
      ShortTextHasNoMarker(nonce, s[1..]);
    }
  }

  /** A literal text that ends in an unfinished marker, followed by a marker. */
  function Undelimited(nonce: string): Rendering {
    Rendering([MarkerHead(nonce) + "0", ""], [0])
  }

  /** What is left of the marker when its first two characters finish the one in the text. */
  function Remainder(nonce: string): string {
    Marker(nonce, 0)[2..]
  }

  lemma UndelimitedText(nonce: string)
    ensures Generated(nonce, Undelimited(nonce), SQLSERVER) == Marker(nonce, 0) + Remainder(nonce)
    ensures |Remainder(nonce)| < |MarkerHead(nonce)| + 3 && Remainder(nonce)[0] == 'b'
  {
    var r, m := Undelimited(nonce), Marker(nonce, 0);
    assert Numeral(0) == "0";
    assert Markers(nonce, r.order) == [m] && [m][1..] == [] && r.texts[1..] == [""];
    assert Assemble([""], []) == "";
    assert Assemble(r.texts, [m]) == r.texts[0] + m + "";
    assert m == "__" + Remainder(nonce) && m == r.texts[0] + "__";
  }

  lemma FindOnce(nonce: string, k: nat, tail: string)
    requires |tail| < |MarkerHead(nonce)| + 3
    ensures FindAll(nonce, Marker(nonce, k) + tail) == [Marker(nonce, k)]
  {
    FindMarker(nonce, k, tail);
    ShortTextHasNoMarker(nonce, tail);
  }

  lemma UndelimitedFound(nonce: string, sql: string, tail: string)
    requires |tail| < |MarkerHead(nonce)| + 3 && sql == Marker(nonce, 0) + tail
    ensures FindAll(nonce, sql) == [Marker(nonce, 0)]
    ensures ReplaceEach(sql, [Marker(nonce, 0)], "?") == "?" + tail
  {
    FindOnce(nonce, 0, tail);
    ReplaceOnce(Marker(nonce, 0), tail, "?");
  }

  lemma ReplaceOnce(m: string, tail: string, bind: string)
    requires m != ""
    ensures ReplaceEach(m + tail, [m], bind) == bind + tail
  {
    var sql := m + tail;
    assert sql[0..|m|] == m && sql[|m|..] == tail;
    assert [m][1..] == [];
  }

  lemma UndelimitedGuard(nonce: string, names: seq<string>)
    requires |names| == 1
    ensures MarkerGuard([Marker(nonce, 0)], MarkerNames(nonce, names, 1))
  {
    var order: seq<nat> := [0];
    assert 0 in order;
    WrittenMarkers(nonce, names, order);
    assert Markers(nonce, order) == [Marker(nonce, 0)];
  }

  /** Whatever the nonce, when a text does end in an unfinished marker the guard can pass on the wrong
      occurrence: part of the literal text is replaced instead of the placeholder. */
  lemma UndelimitedExample(nonce: string, names: seq<string>, parameters: map<string, Value>)
    requires |names| == 1 && AllBound(names, parameters)
    ensures var r := Undelimited(nonce);
      && Rendered(r, 1) && Permutes(r.order, 1)
      && ToPositional(nonce, r, names, parameters, SQLSERVER).Ok?
      && ToPositional(nonce, r, names, parameters, SQLSERVER).value.0 != Assemble(r.texts, Binds("?", 1))
  {
    var r := Undelimited(nonce);
    var sql := Generated(nonce, r, SQLSERVER);
    assert 0 in r.order;
    UndelimitedText(nonce);
    UndelimitedFound(nonce, sql, Remainder(nonce));
    UndelimitedGuard(nonce, names);
    MarkerNamesHold(nonce, names, 1);
    assert Assemble(r.texts, Binds("?", 1))[0] == '_';
    assert ToPositional(nonce, r, names, parameters, SQLSERVER).value.0 == "?" + Remainder(nonce);
  }

  // ----- The substitution and the driver

  /** MAIN RESULT. For a dialect whose percent signs are escaped and whose bind marker is `%s`, a driver
      that formats the text and values of the substitution uses up exactly the values and sees every
      literal character of the rendered texts, with the values in the places of their placeholders. */
  lemma SubstitutionFormats(nonce: string, r: Rendering, names: seq<string>, parameters: map<string, Value>,
                            dialect: Dialect)
    requires dialect.escapePercent && dialect.bindMarker == "%s"
    requires IsNonceText(nonce) && AllDelimit(nonce, r.texts)
    requires Rendered(r, |names|) && AllBound(names, parameters)
        && ToPositional(nonce, r, names, parameters, dialect).Ok?
    ensures var (sql, values) := ToPositional(nonce, r, names, parameters, dialect).value;
      |r.texts| == |values| + 1 && Format(sql, values) == Some(Interleave(r.texts, values))
  {
    BindSubstitutionIsSimultaneous(nonce, r, names, parameters, dialect);
    PercentRoundTrip(r.texts, ToPositional(nonce, r, names, parameters, dialect).value.1);
  }
}
