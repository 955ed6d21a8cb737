/**
 * Header reconciliation (`validate_header`): the actual header is compared
 * with the expected names as a sequence, and differences are reported by
 * membership.
 */
module Header {
  import opened Wrappers
  import opened Findings

  /** The names of `s` that do not occur in `excluded`, in `s` order, repeats kept. */
  function Without(s: seq<string>, excluded: seq<string>): (r: seq<string>)
    ensures forall x :: x in r <==> x in s && x !in excluded
    ensures |r| <= |s|
  {
    if s == [] then []
    else
      assert s == [s[0]] + s[1..];
      (if s[0] in excluded then [] else [s[0]]) + Without(s[1..], excluded)
  }

  /** Filtering a concatenation filters each part: the order of `s` is kept. */
  lemma {:induction false} WithoutAppend(a: seq<string>, b: seq<string>, excluded: seq<string>)
    ensures Without(a + b, excluded) == Without(a, excluded) + Without(b, excluded)
  {
    if a == [] {
      assert a + b == b;
    } else {
      assert (a + b)[0] == a[0];
      assert (a + b)[1..] == a[1..] + b;
      WithoutAppend(a[1..], b, excluded);
    }
  }

  /** Filtering out a superset of the names leaves nothing. */
  lemma {:induction false} WithoutCovered(s: seq<string>, excluded: seq<string>)
    requires forall x :: x in s ==> x in excluded
    ensures Without(s, excluded) == []
  {
    if s != [] {
      assert s[0] in s;
      WithoutCovered(s[1..], excluded);
    }
  }

  /** One `Missing field` finding per name, in order. */
  function MissingFields(names: seq<string>): (r: seq<Finding>)
    ensures |r| == |names|
    ensures forall k :: 0 <= k < |r| ==> r[k] == MissingField(names[k])
  {
    if names == [] then [] else [MissingField(names[0])] + MissingFields(names[1..])
  }

  /** One `Unexpected extra field` finding per name, in order. */
  function UnexpectedFields(names: seq<string>): (r: seq<Finding>)
    ensures |r| == |names|
    ensures forall k :: 0 <= k < |r| ==> r[k] == UnexpectedField(names[k])
  {
    if names == [] then [] else [UnexpectedField(names[0])] + UnexpectedFields(names[1..])
  }

  /**
   * The header findings: none when the header equals the expected names;
   * otherwise the mismatch line, the expected names missing from the header,
   * then the header names not expected.
   */
  function ValidateHeader(header: Option<seq<string>>, expected: seq<string>): (r: seq<Finding>)
    ensures forall k :: 0 <= k < |r| ==> !r[k].AtRow?
    ensures r == [] <==> header == Some(expected)
  {
    match header
    case None => [HeaderAbsent] + MissingFields(expected)
    case Some(actual) =>
      if actual == expected then []
      else
        [HeaderMismatch(actual, expected)]
        + MissingFields(Without(expected, actual))
        + UnexpectedFields(Without(actual, expected))
  }

  /** Without a header: the `None` mismatch line, then every expected name as missing, in order. */
  lemma AbsentHeaderShape(expected: seq<string>)
    ensures var r := ValidateHeader(None, expected);
      && |r| == 1 + |expected|
      && r[0] == HeaderAbsent
      && forall k :: 0 <= k < |expected| ==> r[k + 1] == MissingField(expected[k])
  {
    var r := ValidateHeader(None, expected);
    var mf := MissingFields(expected);
    assert r == [HeaderAbsent] + mf;
    forall k | 0 <= k < |expected| ensures r[k + 1] == MissingField(expected[k]) {
      assert r[k + 1] == mf[k];
    }
  }

  /** The names a `Missing field` list reports, and nothing but such findings. */
  lemma {:induction false} MissingFieldsMembers(names: seq<string>)
    ensures forall n :: MissingField(n) in MissingFields(names) <==> n in names
    ensures forall f :: f in MissingFields(names) ==> f.MissingField?
  {
    if names != [] {
      MissingFieldsMembers(names[1..]);
      assert names == [names[0]] + names[1..];
    }
  }

  /** The names an `Unexpected extra field` list reports, and nothing but such findings. */
  lemma {:induction false} UnexpectedFieldsMembers(names: seq<string>)
    ensures forall n :: UnexpectedField(n) in UnexpectedFields(names) <==> n in names
    ensures forall f :: f in UnexpectedFields(names) ==> f.UnexpectedField?
  {
    if names != [] {
      UnexpectedFieldsMembers(names[1..]);
      assert names == [names[0]] + names[1..];
    }
  }

  /** The layout of a mismatch report: its first line, then the missing names, then the extra ones. */
  lemma Layout(first: Finding, missing: seq<string>, extra: seq<string>)
    ensures var r := [first] + MissingFields(missing) + UnexpectedFields(extra);
      && |r| == 1 + |missing| + |extra|
      && r[0] == first
      && (forall k :: 1 <= k <= |missing| ==> r[k] == MissingField(missing[k - 1]))
      && (forall k :: 1 + |missing| <= k < |r| ==> r[k] == UnexpectedField(extra[k - 1 - |missing|]))
  {
    var head := [first] + MissingFields(missing);
    var uf := UnexpectedFields(extra);
    var r := head + uf;
    forall k | 1 <= k <= |missing| ensures r[k] == MissingField(missing[k - 1]) {
      assert r[k] == head[k];
    }
    forall k | 1 + |missing| <= k < |r| ensures r[k] == UnexpectedField(extra[k - 1 - |missing|]) {
      assert r[k] == uf[k - |head|];
    }
  }

  /**
   * A header that differs: the mismatch line carrying both sequences, then the
   * expected names absent from the header in schema order, then the header
   * names not expected in header order.
   */
  lemma MismatchShape(actual: seq<string>, expected: seq<string>)
    requires actual != expected
    ensures var r := ValidateHeader(Some(actual), expected);
      var missing := Without(expected, actual);
      var extra := Without(actual, expected);
      && |r| == 1 + |missing| + |extra|
      && r[0] == HeaderMismatch(actual, expected)
      && (forall k :: 1 <= k <= |missing| ==> r[k] == MissingField(missing[k - 1]))
      && (forall k :: 1 + |missing| <= k < |r| ==> r[k] == UnexpectedField(extra[k - 1 - |missing|]))
  {
    Layout(HeaderMismatch(actual, expected), Without(expected, actual), Without(actual, expected));
  }

  /** Which names are reported missing or unexpected: the two set differences. */
  lemma MismatchMembers(actual: seq<string>, expected: seq<string>)
    requires actual != expected
    ensures forall n :: MissingField(n) in ValidateHeader(Some(actual), expected) <==> n in expected && n !in actual
    ensures forall n :: UnexpectedField(n) in ValidateHeader(Some(actual), expected) <==> n in actual && n !in expected
  {
    var missing := Without(expected, actual);
    var extra := Without(actual, expected);
    var mf := MissingFields(missing);
    var uf := UnexpectedFields(extra);
    assert ValidateHeader(Some(actual), expected) == [HeaderMismatch(actual, expected)] + mf + uf;
    MissingFieldsMembers(missing);
    UnexpectedFieldsMembers(extra);
  }

  /** In a mismatch report, no missing-field line comes after an unexpected-field line. */
  lemma MismatchOrder(actual: seq<string>, expected: seq<string>)
    requires actual != expected
    ensures var r := ValidateHeader(Some(actual), expected);
      forall j, k :: 0 <= j < k < |r| && r[k].MissingField? ==> !r[j].UnexpectedField?
  {
    var missing := Without(expected, actual);
    var r := ValidateHeader(Some(actual), expected);
    MismatchShape(actual, expected);
    forall j, k | 0 <= j < k < |r| && r[k].MissingField?
      ensures !r[j].UnexpectedField?
    {
      assert k <= |missing|;
    }
  }

  /** A header holding exactly the expected names in another order yields only the mismatch line. */
  lemma ReorderOnlyMismatch(actual: seq<string>, expected: seq<string>)
    requires actual != expected
    requires forall n :: n in actual <==> n in expected
    ensures ValidateHeader(Some(actual), expected) == [HeaderMismatch(actual, expected)]
  {
    WithoutCovered(expected, actual);
    WithoutCovered(actual, expected);
  }
}
