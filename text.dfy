/** Joining lists of strings with a separator, as Rust's `[String]::join`
    does, and the splitting that undoes it. */
module Text {

  /** `items.join(sep)`: the items with `sep` between neighbours; no items
      give the empty string. */
  function Join(items: seq<string>, sep: string): (r: string)
    ensures |items| == 0 ==> r == ""
    ensures |items| == 1 ==> r == items[0]
    ensures |items| > 1 ==> items[0] + sep <= r
  {
    if |items| == 0 then ""
    else if |items| == 1 then items[0]
    else items[0] + sep + Join(items[1..], sep)
  }

  /** Splits at every occurrence of `c`; the pieces never contain `c`, and
      there is always at least one piece. */
  function Split(s: string, c: char): (r: seq<string>)
    ensures |r| >= 1
    ensures forall i :: 0 <= i < |r| ==> c !in r[i]
  {
    if |s| == 0 then [""]
    else
      var rest := Split(s[1..], c);
      if s[0] == c then [""] + rest
      else [[s[0]] + rest[0]] + rest[1..]
  }

  /** A string without the separator is one piece. */
  lemma {:induction false} SplitWithoutSeparator(s: string, c: char)
    requires c !in s
    ensures Split(s, c) == [s]
  {
    if |s| > 0 {
      assert c !in s[1..];
      SplitWithoutSeparator(s[1..], c);
      assert [s[0]] + s[1..] == s;
    }
  }

  /** A first piece free of the separator is split off exactly. */
  lemma {:induction false} SplitFirstPiece(x: string, y: string, c: char)
    requires c !in x
    ensures Split(x + [c] + y, c) == [x] + Split(y, c)
  {
    if |x| == 0 {
      assert x + [c] + y == [c] + y;
      assert ([c] + y)[1..] == y;
    } else {
      var s := x + [c] + y;
      assert s[0] == x[0];
      assert s[1..] == x[1..] + [c] + y;
      assert c !in x[1..];
      SplitFirstPiece(x[1..], y, c);
      assert [x[0]] + x[1..] == x;
    }
  }

  /** Joining with a one-character separator that no item contains is undone
      by splitting at that character. */
  lemma {:induction false} SplitJoin(items: seq<string>, c: char)
    requires |items| >= 1
    requires forall i :: 0 <= i < |items| ==> c !in items[i]
    ensures Split(Join(items, [c]), c) == items
  {
    if |items| == 1 {
      SplitWithoutSeparator(items[0], c);
    } else {
      var tail := items[1..];
      assert forall i :: 0 <= i < |tail| ==> c !in tail[i] by {
        forall i | 0 <= i < |tail| ensures c !in tail[i] {
          assert tail[i] == items[i + 1];
        }
      }
      SplitJoin(tail, c);
      assert c !in items[0];
      SplitFirstPiece(items[0], Join(tail, [c]), c);
      assert [items[0]] + tail == items;
    }
  }
}
