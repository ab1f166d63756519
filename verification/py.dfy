/**
 * The few Python built-ins the controller's parsing relies on, with their exact semantics:
 * `str.split(sep)` for a one-character separator (k separators give k + 1 pieces, empty
 * pieces included), `bytes.decode('ascii')`, and `next((x for x in xs if p(x)), None)`.
 */
module Py {
  import opened Wrappers

  /** One octet of a BLE payload. */
  newtype byte = x: int | 0 <= x < 256

  /** Number of occurrences of `c` in `s`. */
  function Count(s: string, c: char): (n: nat)
    ensures n <= |s|
    ensures n == 0 <==> c !in s
  {
    if s == [] then 0 else (if s[0] == c then 1 else 0) + Count(s[1..], c)
  }

  /** Position of the first occurrence of `c` in `s`. */
  function IndexOf(s: string, c: char): (k: nat)
    requires c in s
    ensures k < |s| && s[k] == c && c !in s[..k]
  {
    if s[0] == c then 0
    else
      assert s == [s[0]] + s[1..];
      var k := 1 + IndexOf(s[1..], c);
      assert s[..k] == [s[0]] + s[1..][..k - 1];
      k
  }

  /** The text before the first `c`, or all of `s` when `c` does not occur. */
  function Before(s: string, c: char): (b: string)
    ensures c !in b && b <= s
    ensures c in s ==> |b| < |s| && s[|b|] == c
  {
    if c in s then s[..IndexOf(s, c)] else s
  }

  /** The text after the first `c`. */
  function After(s: string, c: char): (a: string)
    requires c in s
    ensures s == Before(s, c) + [c] + a
  {
    s[IndexOf(s, c) + 1..]
  }

  /** Python's `s.split(sep)`. */
  function Split(s: string, sep: char): (pieces: seq<string>)
    ensures |pieces| == Count(s, sep) + 1
    ensures forall p <- pieces :: sep !in p
  {
    if s == [] then [""]
    else
      var rest := Split(s[1..], sep);
      if s[0] == sep then [""] + rest
      else [[s[0]] + rest[0]] + rest[1..]
  }

  /** Python's `sep.join(pieces)`. */
  function Join(pieces: seq<string>, sep: char): string
  {
    if |pieces| == 0 then ""
    else if |pieces| == 1 then pieces[0]
    else pieces[0] + [sep] + Join(pieces[1..], sep)
  }

  lemma {:induction false} CountAppend(a: string, b: string, c: char)
    ensures Count(a + b, c) == Count(a, c) + Count(b, c)
  {
    if a == [] {
      assert a + b == b;
    } else {
      assert (a + b)[1..] == a[1..] + b;
      CountAppend(a[1..], b, c);
    }
  }

  /** A text without the separator is a single piece. */
  lemma {:induction false} SplitWithoutSeparator(s: string, sep: char)
    requires sep !in s
    ensures Split(s, sep) == [s]
  {
    if s != [] {
      SplitWithoutSeparator(s[1..], sep);
      assert [s[0]] + s[1..] == s;
    }
  }

  /** Splitting stops at the first separator: the head piece is everything before it. */
  lemma {:induction false} SplitAtSeparator(a: string, b: string, sep: char)
    requires sep !in a
    ensures Split(a + [sep] + b, sep) == [a] + Split(b, sep)
  {
    if a == [] {
      assert a + [sep] + b == [sep] + b;
      assert ([sep] + b)[1..] == b;
    } else {
      assert (a + [sep] + b)[1..] == a[1..] + [sep] + b;
      SplitAtSeparator(a[1..], b, sep);
      assert [a[0]] + a[1..] == a;
    }
  }

  /** The pieces of a text that contains `sep`: what precedes the first `sep`, then the pieces of the rest. */
  lemma SplitFirst(s: string, sep: char)
    requires sep in s
    ensures Split(s, sep) == [Before(s, sep)] + Split(After(s, sep), sep)
  {
    SplitAtSeparator(Before(s, sep), After(s, sep), sep);
  }

  /**
   * Piece 0 of `s.split(sep)` is the text before the first `sep`; piece 1, when there is one,
   * is the text between the first and the second `sep` (not everything after the first).
   */
  lemma SplitPieces(s: string, sep: char)
    ensures Split(s, sep)[0] == Before(s, sep)
    ensures sep in s ==> Split(s, sep)[1] == Before(After(s, sep), sep)
  {
    if sep in s {
      SplitFirst(s, sep);
      var rest := After(s, sep);
      if sep in rest {
        SplitFirst(rest, sep);
      } else {
        SplitWithoutSeparator(rest, sep);
      }
    } else {
      SplitWithoutSeparator(s, sep);
    }
  }

  /** Joining the pieces back with the separator restores the text. */
  lemma {:induction false} JoinSplit(s: string, sep: char)
    ensures Join(Split(s, sep), sep) == s
    decreases |s|
  {
    if sep in s {
      SplitFirst(s, sep);
      JoinSplit(After(s, sep), sep);
    } else {
      SplitWithoutSeparator(s, sep);
    }
  }

  /** Splitting a join of separator-free pieces gives the pieces back. */
  lemma {:induction false} SplitJoin(pieces: seq<string>, sep: char)
    requires |pieces| > 0
    requires forall p <- pieces :: sep !in p
    ensures Split(Join(pieces, sep), sep) == pieces
  {
    if |pieces| == 1 {
      SplitWithoutSeparator(pieces[0], sep);
    } else {
      SplitJoin(pieces[1..], sep);
      SplitAtSeparator(pieces[0], Join(pieces[1..], sep), sep);
      assert [pieces[0]] + pieces[1..] == pieces;
    }
  }

  /** `bytes.decode('ascii')`: fails on any byte of 128 or more. */
  function DecodeAscii(bytes: seq<byte>): (text: Option<string>)
    ensures text.Some? <==> forall b <- bytes :: b < 128
    ensures text.Some? ==> |text.value| == |bytes|
    ensures text.Some? ==> forall i | 0 <= i < |bytes| :: text.value[i] as int == bytes[i] as int
  {
    if bytes == [] then Some([])
    else if bytes[0] >= 128 then assert bytes[0] in bytes; None
    else
      assert forall b <- bytes :: b == bytes[0] || b in bytes[1..];
      assert forall b <- bytes[1..] :: b in bytes;
      match DecodeAscii(bytes[1..])
      case None => None
      case Some(rest) => Some([(bytes[0] as int) as char] + rest)
  }

  /** `next((x for x in xs if p(x)), None)`: the position of the first element satisfying `p`. */
  function First<T>(xs: seq<T>, p: T -> bool): (k: Option<nat>)
    ensures k.Some? ==> k.value < |xs| && p(xs[k.value]) && forall j | 0 <= j < k.value :: !p(xs[j])
    ensures k.None? ==> forall j | 0 <= j < |xs| :: !p(xs[j])
  {
    if xs == [] then None
    else if p(xs[0]) then Some(0)
    else match First(xs[1..], p)
      case None => None
      case Some(k) => Some(k + 1)
  }

  /** The first element satisfying `p` is the one at i when i satisfies it and none before does. */
  lemma {:induction false} FirstAt<T>(xs: seq<T>, p: T -> bool, i: nat)
    requires i < |xs| && p(xs[i])
    requires forall j | 0 <= j < i :: !p(xs[j])
    ensures First(xs, p) == Some(i)
  {
    if i > 0 {
      assert !p(xs[0]);
      var rest := xs[1..];
      forall j | 0 <= j < i - 1
        ensures !p(rest[j])
      {
        assert rest[j] == xs[j + 1];
      }
      FirstAt(rest, p, i - 1);
    }
  }
}
