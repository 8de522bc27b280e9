/** Searching and splitting text, as std::string_view and std::istringstream do it. */
module Text {
  import opened Common

  /** string_view::find for one character. */
  function Find(s: string, c: char, from: nat := 0): (k: Option<nat>)
    ensures k.Some? ==> from <= k.value < |s| && s[k.value] == c && forall i :: from <= i < k.value ==> s[i] != c
    ensures k.None? ==> forall i :: from <= i < |s| ==> s[i] != c
    decreases |s| - from
  {
    if from >= |s| then None
    else if s[from] == c then Some(from)
    else Find(s, c, from + 1)
  }

  lemma FindIs(s: string, c: char, k: nat)
    requires k < |s| && s[k] == c && forall i :: 0 <= i < k ==> s[i] != c
    ensures Find(s, c) == Some(k)
  {
  }

  /** Splitting at stretches of white space. */
  function Split(s: string, space: char -> bool): seq<string>
    decreases |s|
  {
    if s == "" then []
    else if space(s[0]) then Split(s[1..], space)
    else
      var end := TokenEnd(s, space);
      [s[..end]] + Split(s[end..], space)
  }

  function TokenEnd(s: string, space: char -> bool): (end: nat)
    ensures end <= |s| && (forall i :: 0 <= i < end ==> !space(s[i]))
    ensures end < |s| ==> space(s[end])
    ensures s != "" && !space(s[0]) ==> end > 0
  {
    if s == "" || space(s[0]) then 0 else 1 + TokenEnd(s[1..], space)
  }

  predicate Token(s: string, space: char -> bool) {
    s != "" && forall i :: 0 <= i < |s| ==> !space(s[i])
  }

  lemma {:induction false} SplitSkips(s: string, begin: nat, space: char -> bool)
    requires begin <= |s| && forall i :: 0 <= i < begin ==> space(s[i])
    ensures Split(s[begin..], space) == Split(s, space)
  {
    if begin == 0 {
      assert s[0..] == s;
    } else {
      SplitSkips(s[1..], begin - 1, space);
      assert s[1..][begin - 1..] == s[begin..];
    }
  }

  /** find_first_not_of and find_first_of in one: how far the leading stretch of (non-)blanks goes. */
  method Stretch(s: string, space: char -> bool, blank: bool) returns (end: nat)
    ensures end <= |s| && (forall i :: 0 <= i < end ==> space(s[i]) == blank)
    ensures end < |s| ==> space(s[end]) != blank
  {
    end := 0;
    while end < |s| && space(s[end]) == blank
      invariant end <= |s| && forall i :: 0 <= i < end ==> space(s[i]) == blank
    {
      end := end + 1;
    }
  }

  /** The splitting loop: the view shrinks from the front, past blanks and then past a token. */
  method SplitFields(s: string, space: char -> bool) returns (fields: seq<string>)
    ensures fields == Split(s, space)
  {
    fields := [];
    var tail := s;
    while tail != ""
      invariant fields + Split(tail, space) == Split(s, space)
      decreases |tail|
    {
      var begin := Stretch(tail, space, true);
      SplitSkips(tail, begin, space);
      tail := tail[begin..];
      if tail == "" {
        break;
      }
      var end := Stretch(tail, space, false);
      TokenEndIs(tail, end, space);
      assert fields + ([tail[..end]] + Split(tail[end..], space)) == fields + [tail[..end]] + Split(tail[end..], space);
      fields := fields + [tail[..end]];
      tail := tail[end..];
    }
  }

  lemma {:induction false} TokenEndIs(s: string, end: nat, space: char -> bool)
    requires end <= |s| && (forall i :: 0 <= i < end ==> !space(s[i])) && (end < |s| ==> space(s[end]))
    ensures TokenEnd(s, space) == end
  {
    if end > 0 { TokenEndIs(s[1..], end - 1, space); }
  }

  /** The tokens, each after one blank. */
  function Spaced(tokens: seq<string>): string {
    if tokens == [] then "" else " " + tokens[0] + Spaced(tokens[1..])
  }

  /** Splitting gives back the tokens a text was put together from. */
  lemma {:induction false} SplitInvertsSpaced(first: string, tokens: seq<string>, space: char -> bool)
    requires space(' ') && Token(first, space) && forall i :: 0 <= i < |tokens| ==> Token(tokens[i], space)
    ensures Split(first + Spaced(tokens), space) == [first] + tokens
    decreases |tokens|
  {
    var s := first + Spaced(tokens);
    var rest := Spaced(tokens);
    assert s[..|first|] == first && s[|first|..] == rest;
    TokenEndIs(s, |first|, space);
    if tokens != [] {
      assert rest[1..] == tokens[0] + Spaced(tokens[1..]);
      SplitInvertsSpaced(tokens[0], tokens[1..], space);
      assert tokens == [tokens[0]] + tokens[1..];
    }
  }

  /** Splitting cuts at every blank and nowhere else: a text falls apart at each of its blanks, one without blanks is a
      field by itself, and nothing comes of nothing. */
  lemma {:induction false} SplitAtBlank(front: string, blank: char, rest: string, space: char -> bool)
    requires space(blank)
    ensures Split(front + [blank] + rest, space) == Split(front, space) + Split(rest, space)
    ensures Token(front, space) ==> Split(front, space) == [front]
    ensures Split("", space) == []
    decreases |front|
  {
    var s := front + [blank] + rest;
    if front == "" {
      assert s == [blank] + rest && s[1..] == rest;
    } else if space(front[0]) {
      assert s[1..] == front[1..] + [blank] + rest;
      SplitAtBlank(front[1..], blank, rest, space);
    } else {
      var end := TokenEnd(front, space);
      assert s[..end] == front[..end] && s[end..] == front[end..] + [blank] + rest;
      TokenEndIs(s, end, space);
      SplitAtBlank(front[end..], blank, rest, space);
      assert [front[..end]] + (Split(front[end..], space) + Split(rest, space))
          == [front[..end]] + Split(front[end..], space) + Split(rest, space);
      if Token(front, space) { assert end == |front| && front[..end] == front; }
    }
  }
}
