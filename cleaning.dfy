/** The column clean-up done once when the tables are loaded: thousands
    separators are removed from amount strings before they are parsed, and
    the lookup table's 0/1 `Active` flag becomes a `Status` label. */
module Cleaning {
  import opened Frames

  /** The amount string with every ',' removed (`str.replace(',', '')`). */
  function StripCommas(s: string): (r: string)
    ensures ',' !in r
  {
    if s == [] then []
    else (if s[0] == ',' then [] else [s[0]]) + StripCommas(s[1..])
  }

  /** Stripping removes every comma and keeps every other character: only the
      count of ',' changes, and the length drops by exactly that count. */
  lemma {:induction false} StripCommasCounts(s: string)
    ensures multiset(StripCommas(s)) == multiset(s)[',' := 0]
    ensures |StripCommas(s)| == |s| - multiset(s)[',']
  {
    if s != [] {
      StripCommasCounts(s[1..]);
      assert s == [s[0]] + s[1..];
      assert multiset(s) == multiset([s[0]]) + multiset(s[1..]);
    }
  }

  /** Stripping works piece by piece: it keeps the other characters in their order. */
  lemma {:induction false} StripCommasAppend(a: string, b: string)
    ensures StripCommas(a + b) == StripCommas(a) + StripCommas(b)
  {
    if a == [] {
      assert a + b == b;
    } else {
      assert (a + b)[0] == a[0];
      assert (a + b)[1..] == a[1..] + b;
      StripCommasAppend(a[1..], b);
    }
  }

  /** A string without commas is left exactly as it is. */
  lemma {:induction false} StripCommasNoComma(s: string)
    requires ',' !in s
    ensures StripCommas(s) == s
  {
    if s != [] {
      assert s[0] != ',';
      assert ',' !in s[1..];
      StripCommasNoComma(s[1..]);
      assert s == [s[0]] + s[1..];
    }
  }

  /** Stripping twice is the same as stripping once. */
  lemma StripCommasIdempotent(s: string)
    ensures StripCommas(StripCommas(s)) == StripCommas(s)
  {
    StripCommasNoComma(StripCommas(s));
  }

  /** The `Active` -> `Status` mapping: 1 is "Active", 0 is "Not Active", and
      any other value has no entry in the mapping (pandas yields NaN). */
  function StatusLabel(active: int): (status: Option<string>)
    ensures status.Some? <==> active == 0 || active == 1
    ensures active == 1 ==> status == Some("Active")
    ensures active == 0 ==> status == Some("Not Active")
  {
    if active == 1 then Some("Active")
    else if active == 0 then Some("Not Active")
    else None
  }

  /** The code a status label stands for: the inverse of StatusLabel. */
  function StatusCode(status: string): (active: Option<int>)
  {
    if status == "Active" then Some(1)
    else if status == "Not Active" then Some(0)
    else None
  }

  /** StatusLabel and StatusCode are inverse: each label read back gives its code,
      and each code recovered from a label maps to that label. */
  lemma StatusRoundTrip(active: int, status: string)
    ensures StatusLabel(active) == Some(status) ==> StatusCode(status) == Some(active)
    ensures StatusCode(status) == Some(active) ==> StatusLabel(active) == Some(status)
    ensures StatusLabel(active).Some? <==> active == 0 || active == 1
    ensures StatusLabel(1) == Some("Active") && StatusLabel(0) == Some("Not Active")
  {
  }
}
