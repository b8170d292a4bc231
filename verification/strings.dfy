/** String helpers behind the SQL text builders: Python's `str.rstrip` over a set of
    characters, `", ".join`, the accumulate-then-strip loop both list builders share,
    and a splitter that reads a joined list back into its entries. */
module Strings {
  import opened Wrappers

  /** The separator the list builders put after every entry. */
  const Sep: string := ", "

  /** The characters `rstrip(", ")` removes: its argument is a SET of characters,
      not a suffix to remove once. */
  const SepChars: set<char> := {',', ' '}

  predicate EndsWith(s: string, suffix: string) {
    |suffix| <= |s| && s[|s| - |suffix|..] == suffix
  }

  /** A non-empty string whose last character survives `rstrip(", ")`. */
  predicate EndsClean(s: string) {
    |s| > 0 && s[|s| - 1] !in SepChars
  }

  /* ---------------------------------------------------------------------------
     rstrip
     --------------------------------------------------------------------------- */

  /** Every character of t belongs to chars. */
  predicate AllIn(t: string, chars: set<char>) {
    forall i :: 0 <= i < |t| ==> t[i] in chars
  }

  /** `s.rstrip(chars)`: drop every trailing character that belongs to `chars`. */
  function RStrip(s: string, chars: set<char>): (r: string)
    ensures r <= s
    ensures AllIn(s[|r|..], chars)
    ensures r == [] || r[|r| - 1] !in chars
    decreases |s|
  {
    if |s| > 0 && s[|s| - 1] in chars then
      var r := RStrip(s[..|s| - 1], chars);
      assert s[|r|..] == s[..|s| - 1][|r|..] + [s[|s| - 1]];
      r
    else s
  }

  /** The three ensures of RStrip single out one prefix: whatever prefix has only
      strippable characters after it and does not itself end in one is the result. */
  lemma RStripUnique(s: string, chars: set<char>, k: nat)
    requires k <= |s|
    requires forall i :: k <= i < |s| ==> s[i] in chars
    requires k == 0 || s[k - 1] !in chars
    ensures RStrip(s, chars) == s[..k]
  {
    var r := RStrip(s, chars);
    assert AllIn(s[|r|..], chars);
    if k > 0 {
      assert s[k - 1] !in chars;
    }
    if |r| > 0 {
      assert r[|r| - 1] == s[|r| - 1];
    }
  }

  /** Appending only strippable characters does not change what rstrip returns:
      `(s + ", ").rstrip(", ") == s.rstrip(", ")`. */
  lemma RStripAppendStrippable(s: string, t: string, chars: set<char>)
    requires forall i :: 0 <= i < |t| ==> t[i] in chars
    ensures RStrip(s + t, chars) == RStrip(s, chars)
  {
    var r := RStrip(s, chars);
    var st := s + t;
    assert AllIn(s[|r|..], chars);
    forall i | |r| <= i < |st|
      ensures st[i] in chars
    {
      if i < |s| {
        assert st[i] == s[i] == s[|r|..][i - |r|];
      } else {
        assert st[i] == t[i - |s|];
      }
    }
    if |r| > 0 {
      assert st[|r| - 1] == r[|r| - 1];
    }
    RStripUnique(st, chars, |r|);
    assert st[..|r|] == s[..|r|];
  }

  /* ---------------------------------------------------------------------------
     join and the accumulation loop
     --------------------------------------------------------------------------- */

  /** `", ".join(items)`. */
  function Join(items: seq<string>): string {
    if |items| == 0 then ""
    else if |items| == 1 then items[0]
    else items[0] + Sep + Join(items[1..])
  }

  /** A join starts with its first entry and ends with its last. */
  lemma {:induction false} JoinEnds(items: seq<string>)
    requires |items| > 0
    ensures items[0] <= Join(items)
    ensures EndsWith(Join(items), items[|items| - 1])
    decreases |items|
  {
    if |items| > 1 {
      var rest := Join(items[1..]);
      var last := items[|items| - 1];
      JoinEnds(items[1..]);
      var r := items[0] + Sep + rest;
      assert r[|r| - |last|..] == rest[|rest| - |last|..];
    }
  }

  /** Joining one more item at the back adds a separator and the item. */
  lemma {:induction false} JoinSnoc(items: seq<string>, x: string)
    requires |items| > 0
    ensures Join(items + [x]) == Join(items) + Sep + x
    decreases |items|
  {
    var ys := items + [x];
    if |items| == 1 {
      assert ys[1..] == [x];
    } else {
      assert ys[1..] == items[1..] + [x];
      JoinSnoc(items[1..], x);
    }
  }

  /** The join of two or more entries is the join of all but the last, a
      separator, and the last. */
  lemma JoinLast(items: seq<string>)
    requires |items| > 1
    ensures Join(items) == Join(items[..|items| - 1]) + Sep + items[|items| - 1]
  {
    var init := items[..|items| - 1];
    assert items == init + [items[|items| - 1]];
    JoinSnoc(init, items[|items| - 1]);
  }

  /** What the loop of `CREATE_COLUMNLIST_statement` and `JUST_COLUMNLIST_statement`
      accumulates, item by item from the front: `column_str += item + ", "`. Every
      entry, the last one included, is followed by a separator. */
  function Terminated(items: seq<string>): (r: string)
    ensures items == [] ==> r == []
    ensures |items| > 0 ==> EndsWith(r, Sep)
    decreases |items|
  {
    if |items| == 0 then ""
    else Terminated(items[..|items| - 1]) + items[|items| - 1] + Sep
  }

  /** The accumulated string is the join with one separator too many at the end. */
  lemma {:induction false} TerminatedIsJoin(items: seq<string>)
    requires |items| > 0
    ensures Terminated(items) == Join(items) + Sep
    decreases |items|
  {
    if |items| == 1 {
      assert Terminated(items[..0]) == "";
    } else {
      JoinLast(items);
      TerminatedIsJoin(items[..|items| - 1]);
    }
  }

  /** The list builder both `*_COLUMNLIST_statement` functions share: accumulate
      every entry followed by `", "`, then `rstrip(", ")` the whole string. */
  function ColumnList(items: seq<string>): (r: string)
    ensures r == RStrip(Join(items), SepChars)
    ensures items == [] ==> r == []
    ensures r == [] || r[|r| - 1] !in SepChars
    ensures r <= Join(items)
    ensures |items| > 0 && EndsClean(items[|items| - 1]) ==> r == Join(items)
  {
    StripTerminated(items);
    StripCleanJoin(items);
    RStrip(Terminated(items), SepChars)
  }

  /** Stripping the accumulated string is stripping the plain join. */
  lemma StripTerminated(items: seq<string>)
    ensures RStrip(Terminated(items), SepChars) == RStrip(Join(items), SepChars)
  {
    if |items| > 0 {
      TerminatedIsJoin(items);
      RStripAppendStrippable(Join(items), Sep, SepChars);
    }
  }

  /** rstrip leaves a join alone when its last entry ends cleanly. */
  lemma StripCleanJoin(items: seq<string>)
    ensures |items| > 0 && EndsClean(items[|items| - 1]) ==> RStrip(Join(items), SepChars) == Join(items)
  {
    if |items| > 0 && EndsClean(items[|items| - 1]) {
      var joined := Join(items);
      var last := items[|items| - 1];
      JoinEnds(items);
      assert joined[|joined| - 1] == last[|last| - 1];
    }
  }

  /* ---------------------------------------------------------------------------
     reading a joined list back
     --------------------------------------------------------------------------- */

  /** A separator `", "` starts at index j of s. */
  predicate IsSepAt(s: string, j: int) {
    0 <= j && j + 1 < |s| && s[j] == ',' && s[j + 1] == ' '
  }

  /** No separator starts at an index in [lo, hi). */
  predicate NoSepBetween(s: string, lo: int, hi: int) {
    forall j :: lo <= j < hi ==> !IsSepAt(s, j)
  }

  /** s contains no separator. */
  predicate NoSep(s: string) {
    NoSepBetween(s, 0, |s|)
  }

  /** No entry contains a separator. */
  predicate AllNoSep(items: seq<string>) {
    forall k :: 0 <= k < |items| ==> NoSep(items[k])
  }

  /** Index of the first separator in s at or after k, if any. */
  function FindSep(s: string, k: nat): (r: Option<nat>)
    requires k <= |s|
    ensures r.Some? ==> k <= r.value && IsSepAt(s, r.value)
    ensures r.Some? ==> NoSepBetween(s, k, r.value)
    ensures r.None? ==> NoSepBetween(s, k, |s|)
    decreases |s| - k
  {
    if k + 1 >= |s| then None
    else if IsSepAt(s, k) then Some(k)
    else FindSep(s, k + 1)
  }

  /** Cutting s at its first separator i: the piece before has no separator, and
      piece, separator and remainder make up s again. */
  lemma CutAtSep(s: string, i: nat)
    requires IsSepAt(s, i)
    requires NoSepBetween(s, 0, i)
    ensures NoSep(s[..i])
    ensures s == s[..i] + Sep + s[i + 2..]
  {
    var head := s[..i];
    forall j | 0 <= j < |head|
      ensures !IsSepAt(head, j)
    {
      if j + 1 < i {
        assert head[j] == s[j] && head[j + 1] == s[j + 1];
        assert !IsSepAt(s, j);
      }
    }
    assert s[i..i + 2] == Sep;
    assert s == s[..i] + s[i..i + 2] + s[i + 2..];
  }

  /** Splits s at every separator: the inverse of Join on separator-free entries. */
  function SplitList(s: string): (r: seq<string>)
    ensures |r| > 0
    ensures Join(r) == s
    ensures AllNoSep(r)
    decreases |s|
  {
    match FindSep(s, 0)
    case None => [s]
    case Some(i) =>
      CutAtSep(s, i);
      var rest := SplitList(s[i + 2..]);
      assert ([s[..i]] + rest)[1..] == rest;
      [s[..i]] + rest
  }

  /** SplitList cuts at the first separator and goes on with the rest. */
  lemma SplitAt(s: string, i: nat)
    requires i <= |s| && FindSep(s, 0) == Some(i)
    ensures SplitList(s) == [s[..i]] + SplitList(s[i + 2..])
  {
  }

  /** A string without commas has no separator in it. */
  lemma CommaFreeNoSep(s: string)
    requires ',' !in s
    ensures NoSep(s)
  {
    forall j | 0 <= j < |s|
      ensures !IsSepAt(s, j)
    {
      assert s[j] in s;
    }
  }

  /** The first separator of `x + ", " + y` is the one right after x when x has none. */
  lemma FindSepAfter(x: string, y: string)
    requires NoSep(x)
    ensures FindSep(x + Sep + y, 0) == Some(|x|)
  {
    var s := x + Sep + y;
    assert IsSepAt(s, |x|);
    forall j | 0 <= j < |x|
      ensures !IsSepAt(s, j)
    {
      if j + 1 < |x| {
        assert s[j] == x[j] && s[j + 1] == x[j + 1];
        assert !IsSepAt(x, j);
      } else {
        assert s[j + 1] == ',';
      }
    }
  }

  /** A separator-free entry stays separator-free behind a comma-free prefix. */
  lemma PrefixedNoSep(prefix: string, x: string)
    requires ',' !in prefix && NoSep(x)
    ensures NoSep(prefix + x)
  {
    var s := prefix + x;
    forall j | 0 <= j < |s|
      ensures !IsSepAt(s, j)
    {
      if j < |prefix| {
        assert s[j] == prefix[j] && prefix[j] in prefix;
      } else if j + 1 < |s| {
        assert s[j] == x[j - |prefix|] && s[j + 1] == x[j - |prefix| + 1];
        assert !IsSepAt(x, j - |prefix|);
      }
    }
  }

  /** Splitting a join gives back the entries, provided none contains a separator. */
  lemma {:induction false} SplitJoin(items: seq<string>)
    requires |items| > 0
    requires AllNoSep(items)
    ensures SplitList(Join(items)) == items
    decreases |items|
  {
    if |items| == 1 {
      assert NoSep(items[0]);
    } else {
      var x := items[0];
      var rest := Join(items[1..]);
      var s := x + Sep + rest;
      assert Join(items) == s;
      FindSepAfter(x, rest);
      SplitAt(s, |x|);
      assert s[..|x|] == x;
      assert s[|x| + 2..] == rest;
      SplitJoin(items[1..]);
      assert items == [x] + items[1..];
    }
  }
}
