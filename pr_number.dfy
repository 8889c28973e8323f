/**
  Resolving the pull-request number: JavaScript's `parseInt(s, 10)` on the
  subset of behaviour that decides the outcome, the `pr-(\d+)-` search in a
  merge-queue head ref, and the precedence chain of `extractPrNumber`.
*/
module PrNumber {
  import opened Wrappers

  /** A JavaScript number as `parseInt` can produce it: NaN or an integer (no rounding modelled). */
  datatype JsNumber = NaN | Int(value: int)

  /** JavaScript truthiness of a number: NaN, 0 and -0 are falsy. */
  predicate Truthy(n: JsNumber): (b: bool)
    ensures b <==> n != NaN && n != Int(0)
  {
    n.Int? && n.value != 0
  }

  /** `\d` in a JavaScript regular expression without the `u` flag, and a radix-10 digit of `parseInt`. */
  predicate IsDigit(c: char)
  {
    '0' <= c <= '9'
  }

  /** The white space and line terminators that `parseInt` skips before the number. */
  predicate IsJsWhiteSpace(c: char)
  {
    || c == '\t' || c == '\n' || c == '\U{B}' || c == '\U{C}' || c == '\r' || c == ' '
    || c == '\U{A0}' || c == '\U{1680}' || ('\U{2000}' <= c <= '\U{200A}')
    || c == '\U{2028}' || c == '\U{2029}' || c == '\U{202F}' || c == '\U{205F}'
    || c == '\U{3000}' || c == '\U{FEFF}'
  }

  predicate AllDigits(s: string)
  {
    forall k :: 0 <= k < |s| ==> IsDigit(s[k])
  }

  function DigitValue(c: char): nat
    requires IsDigit(c)
  {
    (c as int) - ('0' as int)
  }

  /** The value of a decimal digit string, most significant digit first. */
  function DecimalValue(ds: string): nat
    requires AllDigits(ds)
    decreases |ds|
  {
    if ds == [] then 0
    else DecimalValue(ds[..|ds| - 1]) * 10 + DigitValue(ds[|ds| - 1])
  }

  /** The decimal numeral of `n`, without leading zeros. */
  function ShowNat(n: nat): (ds: string)
    ensures |ds| > 0 && AllDigits(ds)
  {
    var d := ['0' + ((n % 10) as char)];
    if n < 10 then d else ShowNat(n / 10) + d
  }

  /** Length of the run of digits that starts at position `i` of `s`: the longest one. */
  function DigitRun(s: string, i: nat): (n: nat)
    requires i <= |s|
    ensures i + n <= |s|
    ensures forall k :: i <= k < i + n ==> IsDigit(s[k])
    ensures i + n == |s| || !IsDigit(s[i + n])
    decreases |s| - i
  {
    if i < |s| && IsDigit(s[i]) then 1 + DigitRun(s, i + 1) else 0
  }

  /** Number of white-space characters at the start of `s`. */
  function LeadingSpace(s: string): (n: nat)
    ensures n <= |s|
    ensures forall k :: 0 <= k < n ==> IsJsWhiteSpace(s[k])
    ensures n == |s| || !IsJsWhiteSpace(s[n])
  {
    if s != [] && IsJsWhiteSpace(s[0]) then 1 + LeadingSpace(s[1..]) else 0
  }

  /**
    `parseInt(s, 10)`: skip leading white space, take an optional sign, then
    the longest run of digits; no digit at all gives NaN.
  */
  function ParseInt(s: string): (r: JsNumber)
    ensures r.NaN? <==>
      var t := s[LeadingSpace(s)..];
      var u := if t != [] && (t[0] == '+' || t[0] == '-') then t[1..] else t;
      u == [] || !IsDigit(u[0])
  {
    var t := s[LeadingSpace(s)..];
    var negative := t != [] && t[0] == '-';
    var u := if t != [] && (t[0] == '+' || t[0] == '-') then t[1..] else t;
    var n := DigitRun(u, 0);
    if n == 0 then NaN
    else
      var v: int := DecimalValue(u[..n]);
      Int(if negative then -v else v)
  }

  lemma {:induction false} DecimalShow(n: nat)
    ensures DecimalValue(ShowNat(n)) == n
  {
    var ds := ShowNat(n);
    if n >= 10 {
      DecimalShow(n / 10);
      assert ds[..|ds| - 1] == ShowNat(n / 10);
    }
  }

  /**
    Reading the decimal numeral of `n` back with `parseInt` gives `n`, also
    when other text that does not begin with a digit follows it.
  */
  lemma ParseIntShowNat(n: nat, rest: string)
    requires rest == [] || !IsDigit(rest[0])
    ensures ParseInt(ShowNat(n) + rest) == Int(n)
  {
    var ds := ShowNat(n);
    var s := ds + rest;
    assert !IsJsWhiteSpace(s[0]);
    assert LeadingSpace(s) == 0;
    assert s[0..] == s;
    DigitRunOfPrefix(ds, rest);
    assert s[..|ds|] == ds;
    DecimalShow(n);
  }

  /** A run of `m` digits that is not followed by another digit is the longest run. */
  lemma DigitRunIsLongest(s: string, i: nat, m: nat)
    requires i + m <= |s|
    requires forall k :: i <= k < i + m ==> IsDigit(s[k])
    requires i + m == |s| || !IsDigit(s[i + m])
    ensures DigitRun(s, i) == m
  {
  }

  /** A digit string followed by a non-digit has a digit run exactly its length. */
  lemma DigitRunOfPrefix(ds: string, rest: string)
    requires AllDigits(ds)
    requires rest == [] || !IsDigit(rest[0])
    ensures DigitRun(ds + rest, 0) == |ds|
  {
    var s := ds + rest;
    assert forall k :: 0 <= k < |ds| ==> s[k] == ds[k];
    assert |ds| < |s| ==> s[|ds|] == rest[0];
    DigitRunIsLongest(s, 0, |ds|);
  }

  /** A digit string has value 0 exactly when each of its digits is '0'. */
  lemma {:induction false} DecimalValueZero(ds: string)
    requires AllDigits(ds)
    ensures DecimalValue(ds) == 0 <==> forall k :: 0 <= k < |ds| ==> ds[k] == '0'
    decreases |ds|
  {
    if ds != [] {
      var p := ds[..|ds| - 1];
      DecimalValueZero(p);
      assert forall k :: 0 <= k < |p| ==> p[k] == ds[k];
    }
  }

  /**
    A non-empty digit string, such as a `pr-number` input or a captured tag,
    reads as a truthy number exactly when some digit is not '0': "0" and
    "000" are falsy.
  */
  lemma ParsedDigitsTruthy(ds: string)
    requires |ds| > 0 && AllDigits(ds)
    ensures Truthy(ParseInt(ds)) <==> exists k :: 0 <= k < |ds| && ds[k] != '0'
  {
    ParseIntDigits(ds);
    DecimalValueZero(ds);
  }

  /** `parseInt` of a non-empty digit string is its decimal value. */
  lemma ParseIntDigits(ds: string)
    requires |ds| > 0 && AllDigits(ds)
    ensures ParseInt(ds) == Int(DecimalValue(ds))
  {
    assert !IsJsWhiteSpace(ds[0]);
    assert LeadingSpace(ds) == 0;
    assert ds[0..] == ds;
    DigitRunOfPrefix(ds, []);
    assert ds + [] == ds;
    assert ds[..|ds|] == ds;
  }

  // ---- The `pr-(\d+)-` search ----

  /**
    The regular expression `pr-(\d+)-` matches at position `k` of `s` with a
    capture of `m` digits: the literal "pr-", `m >= 1` digits, then "-".
  */
  predicate RegexMatchAt(s: string, k: nat, m: nat)
  {
    && m >= 1
    && k + 3 + m < |s|
    && s[k..k + 3] == "pr-"
    && (forall j :: k + 3 <= j < k + 3 + m ==> IsDigit(s[j]))
    && s[k + 3 + m] == '-'
  }

  /** The executable test: "pr-", then the longest digit run, non-empty and followed by "-". */
  predicate TagAt(s: string, k: nat)
  {
    && k + 3 <= |s|
    && s[k..k + 3] == "pr-"
    && DigitRun(s, k + 3) > 0
    && k + 3 + DigitRun(s, k + 3) < |s|
    && s[k + 3 + DigitRun(s, k + 3)] == '-'
  }

  /** The digits the capture group holds when the tag is at `k`. */
  function TagDigits(s: string, k: nat): (ds: string)
    requires TagAt(s, k)
    ensures |ds| > 0 && AllDigits(ds)
  {
    s[k + 3..k + 3 + DigitRun(s, k + 3)]
  }

  /**
    The test agrees with the regular expression, and the only capture a match
    at `k` can have is the longest digit run, so backtracking never shortens it.
  */
  lemma TagAtIsRegexMatch(s: string, k: nat)
    ensures TagAt(s, k) <==> exists m: nat :: RegexMatchAt(s, k, m)
    ensures forall m: nat :: RegexMatchAt(s, k, m) ==> m == DigitRun(s, k + 3) && s[k + 3..k + 3 + m] == TagDigits(s, k)
  {
    if TagAt(s, k) {
      assert RegexMatchAt(s, k, DigitRun(s, k + 3));
    }
    forall m: nat | RegexMatchAt(s, k, m)
      ensures m == DigitRun(s, k + 3)
    {
      DigitRunIsLongest(s, k + 3, m);
    }
  }
  /** The leftmost position at or after `i` where the tag occurs, as `RegExp.exec` finds it. */
  function FirstTag(s: string, i: nat): (r: Option<nat>)
    ensures r.Some? ==> i <= r.value < |s| && TagAt(s, r.value)
    ensures r.Some? ==> forall j :: i <= j < r.value ==> !TagAt(s, j)
    ensures r.None? ==> forall j :: i <= j < |s| ==> !TagAt(s, j)
    decreases |s| - i
  {
    if i >= |s| then None
    else if TagAt(s, i) then Some(i)
    else FirstTag(s, i + 1)
  }

  /**
    `extractPrNumber`: a non-empty `pr-number` input wins and is read with
    `parseInt`; otherwise the pull-request payload's number; otherwise the
    digits of the leftmost `pr-<digits>-` in the merge group's head ref;
    otherwise undefined (`None`).
  */
  function ExtractPrNumber(prNumberInput: string, pullRequest: Option<int>, mergeGroupHeadRef: Option<string>): (r: Option<JsNumber>)
    ensures prNumberInput != "" ==> r == Some(ParseInt(prNumberInput))
    ensures prNumberInput == "" && pullRequest.Some? ==> r == Some(Int(pullRequest.value))
  {
    if prNumberInput != "" then Some(ParseInt(prNumberInput))
    else if pullRequest.Some? then Some(Int(pullRequest.value))
    else if mergeGroupHeadRef.Some? then
      var s := mergeGroupHeadRef.value;
      match FirstTag(s, 0)
      case None => None
      case Some(k) => Some(ParseInt(TagDigits(s, k)))
    else None
  }

  /**
    With neither an input nor a pull-request payload, the number comes from
    the leftmost tag of the head ref, read as a decimal; there is none (the
    result is undefined) exactly when no position of the head ref holds a tag.
  */
  lemma ExtractFromHeadRef(headRef: Option<string>)
    ensures ExtractPrNumber("", None, headRef).None? <==>
      headRef.None? || forall k :: 0 <= k < |headRef.value| ==> !TagAt(headRef.value, k)
    ensures forall k ::
      && headRef.Some? && 0 <= k < |headRef.value| && TagAt(headRef.value, k)
      && (forall j :: 0 <= j < k ==> !TagAt(headRef.value, j))
      ==> ExtractPrNumber("", None, headRef) == Some(Int(DecimalValue(TagDigits(headRef.value, k))))
  {
    if headRef.Some? {
      var s := headRef.value;
      var first := FirstTag(s, 0);
      if first.Some? {
        ParseIntDigits(TagDigits(s, first.value));
        forall k | 0 <= k < |s| && TagAt(s, k) && (forall j :: 0 <= j < k ==> !TagAt(s, j))
          ensures k == first.value
        {
        }
      }
    }
  }

  /** The head ref of a merge-queue branch for pull request 123. */
  const SampleHeadRef: string := "gh-readonly-queue/main/pr-123-abc"

  /** A merge-queue head ref names its pull request: the sample head ref gives 123. */
  lemma MergeQueueScenario()
    ensures ExtractPrNumber("", None, Some(SampleHeadRef)) == Some(Int(123))
  {
    SampleTag();
    SampleNoEarlierTag();
    ExtractFromHeadRef(Some(SampleHeadRef));
    DecimalOf123();
  }

  /** The sample head ref holds the tag at position 23, with digits "123". */
  lemma SampleTag()
    ensures TagAt(SampleHeadRef, 23) && TagDigits(SampleHeadRef, 23) == "123"
  {
  }

  /** No position before 23 of the sample head ref holds the tag: there is no 'p' there. */
  lemma SampleNoEarlierTag()
    ensures forall j :: 0 <= j < 23 ==> !TagAt(SampleHeadRef, j)
  {
    var s := SampleHeadRef;
    var before := s[..23];
    assert before == "gh-readonly-queue/main/";
    assert 'p' !in before;
    forall j | 0 <= j < 23
      ensures !TagAt(s, j)
    {
      assert s[j] in before;
      assert s[j..j + 3][0] == s[j];
    }
  }

  /** The value of the numeral "123". */
  lemma DecimalOf123()
    ensures DecimalValue("123") == 123
  {
    assert "1"[..0] == "";
    assert "12"[..1] == "1";
    assert "123"[..2] == "12";
  }
}
