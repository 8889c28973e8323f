/**
  The result encoder: the `result-encoding` input selects newline-joined text
  or a JSON array; any other value is a configuration error.
*/
module Encoding {
  import opened Wrappers

  /** The two ways a list can be published. */
  datatype Scheme = Text | Json

  /** What is published for one list: the joined text, or the array handed to `JSON.stringify`. */
  datatype Output = Joined(text: string) | JsonArray(items: seq<string>)

  const EncodingError: string := "'result-encoding' must be either 'string' or 'json'"

  /** `getEncoder`: an empty input means "string". */
  function GetEncoder(resultEncoding: string): (r: Result<Scheme, string>)
    ensures r == Success(Text) <==> resultEncoding == "" || resultEncoding == "string"
    ensures r == Success(Json) <==> resultEncoding == "json"
    ensures r.Failure? <==> resultEncoding !in {"", "string", "json"}
    ensures r.Failure? ==> r.error == EncodingError
  {
    var encoding := if resultEncoding != "" then resultEncoding else "string";
    if encoding == "json" then Success(Json)
    else if encoding == "string" then Success(Text)
    else Failure(EncodingError)
  }

  /** The number of newline characters in `s`. */
  function Newlines(s: string): nat
  {
    if s == [] then 0 else (if s[0] == '\n' then 1 else 0) + Newlines(s[1..])
  }

  lemma {:induction false} NewlinesAppend(a: string, b: string)
    ensures Newlines(a + b) == Newlines(a) + Newlines(b)
    decreases |a|
  {
    if a != [] {
      assert (a + b)[1..] == a[1..] + b;
      NewlinesAppend(a[1..], b);
    } else {
      assert a + b == b;
    }
  }

  lemma {:induction false} NoNewlineCount(a: string)
    requires '\n' !in a
    ensures Newlines(a) == 0
    decreases |a|
  {
    if a != [] {
      assert a[0] != '\n';
      NoNewlineCount(a[1..]);
    }
  }

  /**
    `files.join("\n")`: the paths in order with one newline between each two,
    so a non-empty list whose paths hold no newline gives a text with exactly
    one newline fewer than it has paths.
  */
  function Join(xs: seq<string>): (text: string)
    ensures xs == [] ==> text == ""
    ensures xs != [] ==> xs[0] <= text
    ensures xs != [] && NoNewline(xs) ==> Newlines(text) == |xs| - 1
  {
    if xs == [] then ""
    else if |xs| == 1 then
      (if '\n' !in xs[0] then NoNewlineCount(xs[0]); xs[0] else xs[0])
    else
      var rest := Join(xs[1..]);
      if NoNewline(xs) then
        assert NoNewline(xs[1..]) by { assert forall i :: 0 <= i < |xs| - 1 ==> xs[1..][i] == xs[i + 1]; }
        assert '\n' !in xs[0];
        NoNewlineCount(xs[0]);
        NewlinesAppend(xs[0], "\n");
        NewlinesAppend(xs[0] + "\n", rest);
        xs[0] + "\n" + rest
      else
        xs[0] + "\n" + rest
  }

  /** `s.split("\n")`: the pieces between newlines; the empty string gives one empty piece. */
  function Split(s: string): (pieces: seq<string>)
    ensures |pieces| >= 1
  {
    if s == [] then [""]
    else
      var rest := Split(s[1..]);
      if s[0] == '\n' then [""] + rest
      else [[s[0]] + rest[0]] + rest[1..]
  }

  predicate NoNewline(xs: seq<string>)
  {
    forall i :: 0 <= i < |xs| ==> '\n' !in xs[i]
  }

  /** Splitting a path without a newline, followed by more text, yields the path first. */
  lemma {:induction false} SplitPrefix(a: string, rest: string)
    requires '\n' !in a
    ensures Split(a + rest) == [a + Split(rest)[0]] + Split(rest)[1..]
    decreases |a|
  {
    if a != [] {
      SplitPrefix(a[1..], rest);
      assert (a + rest)[1..] == a[1..] + rest;
      assert [a[0]] + (a[1..] + Split(rest)[0]) == a + Split(rest)[0];
    } else {
      var r := Split(rest);
      assert a + rest == rest;
      assert a + r[0] == r[0];
      assert [r[0]] + r[1..] == r;
    }
  }

  /**
    The text encoding is undone by splitting on newlines when the list is
    non-empty and no path contains a newline.
  */
  lemma {:induction false} SplitJoin(xs: seq<string>)
    requires xs != [] && NoNewline(xs)
    ensures Split(Join(xs)) == xs
    decreases |xs|
  {
    if |xs| == 1 {
      SplitPrefix(xs[0], "");
      assert xs[0] + "" == xs[0];
      assert xs == [xs[0]];
    } else {
      SplitJoin(xs[1..]);
      var tail := "\n" + Join(xs[1..]);
      SplitPrefix(xs[0], tail);
      assert xs[0] + "\n" + Join(xs[1..]) == xs[0] + tail;
      assert tail[1..] == Join(xs[1..]);
      assert Split(tail) == [""] + xs[1..];
      assert xs[0] + "" == xs[0];
      assert [xs[0]] + xs[1..] == xs;
    }
  }

  /**
    The encoder applied to one list: the text encoding is newline-joined text
    that splits back into the list when the list is non-empty and no path
    holds a newline; the JSON encoding is the array itself.
  */
  function Encode(e: Scheme, xs: seq<string>): (out: Output)
    ensures e == Text ==> out.Joined?
    ensures e == Text && xs == [] ==> out == Joined("")
    ensures e == Text && xs != [] && NoNewline(xs) ==> Split(out.text) == xs
    ensures e == Json ==> out == JsonArray(xs)
  {
    match e
    case Text =>
      if xs != [] && NoNewline(xs) then SplitJoin(xs); Joined(Join(xs)) else Joined(Join(xs))
    case Json => JsonArray(xs)
  }

  /** The empty list is the one text encoding that does not split back: it yields one empty path. */
  lemma SplitJoinEmpty()
    ensures Split(Join([])) == [""]
  {
  }

  /** Each encoding is injective on the lists it can round-trip, so distinct results publish distinct outputs. */
  lemma EncodeInjective(e: Scheme, xs: seq<string>, ys: seq<string>)
    requires xs != [] && ys != [] && NoNewline(xs) && NoNewline(ys)
    requires Encode(e, xs) == Encode(e, ys)
    ensures xs == ys
  {
  }
}
