/**
 * The validator-message filter: the keys of a response whose value, a text
 * or a list of texts, contains one of the given error messages.
 */
module ErrorFilter {
  import opened Text

  /** A response value: a text, a list of texts, or anything else. */
  datatype ErrorValue = Plain(text: string) | Items(items: seq<string>) | OtherValue

  /** The messages argument: a single message or a list of them. */
  datatype Messages = One(msg: string) | Many(msgs: seq<string>)

  /** A response, as its (key, value) pairs in dictionary order. */
  type Response = seq<(string, ErrorValue)>

  /** A single message is treated as a one-element list. */
  function AsList(m: Messages): (r: seq<string>)
    ensures m.One? ==> r == [m.msg]
    ensures m.Many? ==> r == m.msgs
  {
    match m
    case One(msg) => [msg]
    case Many(msgs) => msgs
  }

  /**
   * A value is reported when some message occurs in it (a text) or in some
   * item of it (a list); any other value never is.
   */
  predicate Matches(v: ErrorValue, msgs: seq<string>) {
    match v
    case Plain(t) => exists i :: 0 <= i < |msgs| && Contains(msgs[i], t)
    case Items(items) => exists i, j :: 0 <= i < |msgs| && 0 <= j < |items| && Contains(msgs[i], items[j])
    case OtherValue => false
  }

  /** The reference definition: the matching keys, in dictionary order. */
  function Selected(d: Response, msgs: seq<string>): (r: seq<string>)
    ensures |r| <= |d|
    decreases |d|
  {
    if |d| == 0 then []
    else (if Matches(d[0].1, msgs) then [d[0].0] else []) + Selected(d[1..], msgs)
  }

  /** `any(error_msg in item for item in value)`. */
  method AnyItemContains(msg: string, items: seq<string>) returns (found: bool)
    ensures found <==> exists j :: 0 <= j < |items| && Contains(msg, items[j])
  {
    found := false;
    var j := 0;
    while j < |items|
      invariant 0 <= j <= |items|
      invariant !found
      invariant forall j' :: 0 <= j' < j ==> !Contains(msg, items[j'])
    {
      if Contains(msg, items[j]) {
        found := true;
        return;
      }
      j := j + 1;
    }
  }

  /** The message loop for one value, stopping at the first message that matches. */
  method ValueMatches(v: ErrorValue, msgs: seq<string>) returns (hit: bool)
    ensures hit <==> Matches(v, msgs)
  {
    hit := false;
    if v.OtherValue? {
      return;
    }
    var i := 0;
    while i < |msgs|
      invariant 0 <= i <= |msgs|
      invariant !hit
      invariant v.Plain? ==> forall i' :: 0 <= i' < i ==> !Contains(msgs[i'], v.text)
      invariant v.Items? ==> forall i', j :: 0 <= i' < i && 0 <= j < |v.items| ==> !Contains(msgs[i'], v.items[j])
    {
      if v.Plain? {
        hit := Contains(msgs[i], v.text);
      } else {
        hit := AnyItemContains(msgs[i], v.items);
      }
      if hit {
        return;
      }
      i := i + 1;
    }
  }

  /**
   * `find_keys_with_error_msgs`: the keys whose value matches, each appended
   * at most once, in dictionary order.
   */
  method FindKeysWithErrorMsgs(d: Response, errorMsgs: Messages) returns (keys: seq<string>)
    ensures keys == Selected(d, AsList(errorMsgs))
  {
    var msgs := AsList(errorMsgs);
    keys := [];
    var k := 0;
    while k < |d|
      invariant 0 <= k <= |d|
      invariant keys + Selected(d[k..], msgs) == Selected(d, msgs)
    {
      assert d[k..][1..] == d[k + 1..];
      var hit := ValueMatches(d[k].1, msgs);
      if hit {
        keys := keys + [d[k].0];
      }
      k := k + 1;
    }
    assert d[k..] == [];
  }

  /** `filter_errors` in the report module is the same loop, written out a second time. */
  method FilterErrors(d: Response, errorMsgs: Messages) returns (keys: seq<string>)
    ensures keys == Selected(d, AsList(errorMsgs))
  {
    keys := FindKeysWithErrorMsgs(d, errorMsgs);
  }

  /** A key is reported exactly when some entry under it matches. */
  lemma {:induction false} SelectedMembers(d: Response, msgs: seq<string>, key: string)
    ensures key in Selected(d, msgs) <==> exists i :: 0 <= i < |d| && d[i].0 == key && Matches(d[i].1, msgs)
    decreases |d|
  {
    if |d| > 0 {
      SelectedMembers(d[1..], msgs, key);
      if key in Selected(d[1..], msgs) {
        var i :| 0 <= i < |d[1..]| && d[1..][i].0 == key && Matches(d[1..][i].1, msgs);
        assert d[i + 1] == d[1..][i];
      }
      if exists i :: 0 <= i < |d| && d[i].0 == key && Matches(d[i].1, msgs) {
        var i :| 0 <= i < |d| && d[i].0 == key && Matches(d[i].1, msgs);
        if i > 0 {
          assert d[1..][i - 1] == d[i];
        }
      }
    }
  }

  /** Filtering keeps dictionary order: the keys of a concatenation are the concatenated keys. */
  lemma {:induction false} SelectedAppend(a: Response, b: Response, msgs: seq<string>)
    ensures Selected(a + b, msgs) == Selected(a, msgs) + Selected(b, msgs)
    decreases |a|
  {
    if |a| > 0 {
      assert (a + b)[1..] == a[1..] + b;
      SelectedAppend(a[1..], b, msgs);
    } else {
      assert a + b == b;
    }
  }

  predicate DistinctKeys(d: Response) {
    forall i, j :: 0 <= i < j < |d| ==> d[i].0 != d[j].0
  }

  /** With distinct keys, as a dictionary has, no key is reported twice. */
  lemma {:induction false} SelectedNoDuplicates(d: Response, msgs: seq<string>)
    requires DistinctKeys(d)
    ensures var r := Selected(d, msgs); forall i, j :: 0 <= i < j < |r| ==> r[i] != r[j]
    decreases |d|
  {
    if |d| > 0 {
      var tail := d[1..];
      assert DistinctKeys(tail);
      SelectedNoDuplicates(tail, msgs);
      SelectedMembers(tail, msgs, d[0].0);
    }
  }

  /** Values that are neither a text nor a list are never reported. */
  lemma {:induction false} OtherValuesIgnored(d: Response, msgs: seq<string>)
    requires forall i :: 0 <= i < |d| ==> d[i].1.OtherValue?
    ensures Selected(d, msgs) == []
    decreases |d|
  {
    if |d| > 0 {
      OtherValuesIgnored(d[1..], msgs);
    }
  }

  /** The empty message is in every text, so it reports every text and every non-empty list. */
  lemma EmptyMessageMatches(v: ErrorValue)
    requires v.Plain? || (v.Items? && |v.items| > 0)
    ensures Matches(v, [""])
  {
    var msgs := [""];
    if v.Plain? {
      assert OccursAt(msgs[0], v.text, 0);
      assert Contains(msgs[0], v.text);
    } else {
      assert OccursAt(msgs[0], v.items[0], 0);
      assert Contains(msgs[0], v.items[0]);
    }
  }
}
