/**
 Character-level helpers over `string` (a `seq<char>`): first occurrence,
 occurrence counts, repetition, joining and splitting on a separator.
 They are the vocabulary the link scanner and the table builder are stated in.
 */
module Strings {
  import opened Options

  /** The first index `k >= from` with `s[k] == c`, or None when there is none. */
  function IndexOf(s: string, c: char, from: nat): (r: Option<nat>)
    decreases |s| - from
    ensures r.Some? ==> from <= r.value < |s| && s[r.value] == c
    ensures r.Some? ==> forall k :: from <= k < r.value ==> s[k] != c
    ensures r.None? ==> forall k :: from <= k < |s| ==> s[k] != c
  {
    if from >= |s| then None
    else if s[from] == c then Some(from)
    else IndexOf(s, c, from + 1)
  }

  /** Any index that holds `c` with no `c` between `from` and it is the one IndexOf returns. */
  lemma IndexOfIsFirst(s: string, c: char, from: nat, k: nat)
    requires from <= k < |s| && s[k] == c
    requires forall p :: from <= p < k ==> s[p] != c
    ensures IndexOf(s, c, from) == Some(k)
  {
  }

  /** Number of occurrences of `c` in `s`. */
  function CountChar(s: string, c: char): (n: nat)
    ensures n <= |s|
    ensures n == 0 <==> c !in s
  {
    if |s| == 0 then 0
    else (if s[0] == c then 1 else 0) + CountChar(s[1..], c)
  }

  lemma {:induction false} CountCharConcat(a: string, b: string, c: char)
    ensures CountChar(a + b, c) == CountChar(a, c) + CountChar(b, c)
    decreases |a|
  {
    if |a| == 0 {
      assert a + b == b;
    } else {
      assert (a + b)[1..] == a[1..] + b;
      CountCharConcat(a[1..], b, c);
    }
  }

  /** `n` copies of `s` back to back; no copies when `n <= 0`, like a `for (i = 0; i < n; i++)` loop. */
  function Repeat(s: string, n: int): (r: string)
    decreases n
  {
    if n <= 0 then "" else s + Repeat(s, n - 1)
  }

  lemma {:induction false} RepeatLength(s: string, n: int)
    ensures |Repeat(s, n)| == if n <= 0 then 0 else |s| * n
    decreases n
  {
    if n > 0 {
      RepeatLength(s, n - 1);
      assert |s| * n == |s| + |s| * (n - 1);
    }
  }

  lemma {:induction false} RepeatCount(s: string, n: int, c: char)
    ensures CountChar(Repeat(s, n), c) == if n <= 0 then 0 else CountChar(s, c) * n
    decreases n
  {
    if n > 0 {
      RepeatCount(s, n - 1, c);
      CountCharConcat(s, Repeat(s, n - 1), c);
      assert CountChar(s, c) * n == CountChar(s, c) + CountChar(s, c) * (n - 1);
    }
  }

  /** Appending one more copy on the right is the same as one more on the left. */
  lemma {:induction false} RepeatSnoc(s: string, n: int)
    requires n >= 0
    ensures Repeat(s, n + 1) == Repeat(s, n) + s
    decreases n
  {
    if n > 0 {
      RepeatSnoc(s, n - 1);
      assert Repeat(s, n + 1) == s + (Repeat(s, n - 1) + s);
    }
  }

  /** The cells written one after another with `sep` between neighbours. */
  function Join(cells: seq<string>, sep: char): (r: string)
    decreases |cells|
  {
    if |cells| == 0 then ""
    else if |cells| == 1 then cells[0]
    else cells[0] + [sep] + Join(cells[1..], sep)
  }

  /** Appending a cell on the right adds one separator and the cell. */
  lemma {:induction false} JoinSnoc(cells: seq<string>, last: string, sep: char)
    requires |cells| >= 1
    ensures Join(cells + [last], sep) == Join(cells, sep) + [sep] + last
    decreases |cells|
  {
    if |cells| == 1 {
      assert (cells + [last])[1..] == [last];
    } else {
      assert (cells + [last])[1..] == cells[1..] + [last];
      JoinSnoc(cells[1..], last, sep);
    }
  }

  /** The pieces of `s` between occurrences of `sep` (always at least one piece). */
  function Split(s: string, sep: char): (r: seq<string>)
    decreases |s|
    ensures |r| >= 1
  {
    match IndexOf(s, sep, 0)
    case None => [s]
    case Some(k) => [s[..k]] + Split(s[k + 1..], sep)
  }

  /** Splitting yields one piece more than there are separators. */
  lemma {:induction false} SplitCount(s: string, sep: char)
    ensures |Split(s, sep)| == CountChar(s, sep) + 1
    decreases |s|
  {
    match IndexOf(s, sep, 0)
    case None =>
    case Some(k) =>
      assert s == s[..k] + ([sep] + s[k + 1..]);
      CountCharConcat(s[..k], [sep] + s[k + 1..], sep);
      CountCharConcat([sep], s[k + 1..], sep);
      assert sep !in s[..k];
      SplitCount(s[k + 1..], sep);
  }

  /** Split undoes Join as long as no cell contains the separator. */
  lemma {:induction false} SplitJoin(cells: seq<string>, sep: char)
    requires |cells| >= 1
    requires forall i :: 0 <= i < |cells| ==> sep !in cells[i]
    ensures Split(Join(cells, sep), sep) == cells
    decreases |cells|
  {
    var s := Join(cells, sep);
    if |cells| == 1 {
    } else {
      var head := cells[0];
      var rest := Join(cells[1..], sep);
      assert s == head + [sep] + rest;
      assert s[|head|] == sep;
      forall p | 0 <= p < |head| ensures s[p] != sep {
        assert s[p] == head[p];
      }
      IndexOfIsFirst(s, sep, 0, |head|);
      assert s[..|head|] == head;
      assert s[|head| + 1..] == rest;
      SplitJoin(cells[1..], sep);
      assert cells == [head] + cells[1..];
    }
  }
}
