/**
 String searching and splitting, as the parser uses them.
 A C++ `char` is a Dafny `char`; the bytes of the source are its first 256 values.
 */
module Text {

  datatype Option<+T> = None | Some(value: T)

  /** The pattern occurs in s at position k. */
  predicate At(s: string, pat: string, k: int) {
    0 <= k && k + |pat| <= |s| && s[k..k + |pat|] == pat
  }

  /** p is the first position at or after `from` where the pattern occurs. */
  predicate IsFirst(s: string, pat: string, from: nat, p: nat) {
    from <= p && At(s, pat, p) && forall k :: from <= k < p ==> !At(s, pat, k)
  }

  lemma FirstExists(s: string, pat: string, from: nat, k: nat)
    requires from <= k && At(s, pat, k)
    ensures exists p: nat :: p <= |s| && IsFirst(s, pat, from, p)
    decreases k
  {
    if j: nat :| from <= j < k && At(s, pat, j) {
      FirstExists(s, pat, from, j);
    } else {
      assert IsFirst(s, pat, from, k);
    }
  }

  lemma FirstOrNone(s: string, pat: string, from: nat)
    ensures (exists p: nat :: p <= |s| && IsFirst(s, pat, from, p)) || forall k :: from <= k ==> !At(s, pat, k)
  {
    if k: nat :| from <= k && At(s, pat, k) {
      FirstExists(s, pat, from, k);
    }
  }

  /** std::string::find: the first occurrence at or after `from`. */
  function Find(s: string, pat: string, from: nat): (r: Option<nat>)
    ensures r.Some? ==> from <= r.value && At(s, pat, r.value)
    ensures r.Some? ==> forall k :: from <= k < r.value ==> !At(s, pat, k)
    ensures r.None? ==> forall k :: from <= k ==> !At(s, pat, k)
  {
    FirstOrNone(s, pat, from);
    if p: nat :| p <= |s| && IsFirst(s, pat, from, p) then Some(p) else None
  }

  /** The first occurrence is the only position with these two properties. */
  lemma FindIs(s: string, pat: string, from: nat, p: nat)
    requires from <= p && At(s, pat, p)
    requires forall k :: from <= k < p ==> !At(s, pat, k)
    ensures Find(s, pat, from) == Some(p)
  {
    var r := Find(s, pat, from);
  }

  /** Characters of an occurrence. */
  lemma AtIndex(s: string, pat: string, k: nat, j: nat)
    requires j < |pat|
    ensures At(s, pat, k) ==> k + j < |s| && s[k + j] == pat[j]
  {
    if At(s, pat, k) {
      assert s[k..k + |pat|][j] == s[k + j];
    }
  }

  /** Occurrences inside a prefix are those of the prefix. */
  lemma AtPrefix(s: string, pat: string, p: nat, k: nat)
    requires p <= |s| && k + |pat| <= p
    ensures At(s[..p], pat, k) <==> At(s, pat, k)
  {
    assert s[..p][k..k + |pat|] == s[k..k + |pat|];
  }

  /** A one-character pattern occurs exactly where the character stands. */
  lemma AtChar(s: string, c: char, k: int)
    ensures At(s, [c], k) <==> 0 <= k < |s| && s[k] == c
  {
    if 0 <= k < |s| {
      assert s[k..k + 1] == [s[k]];
    }
  }

  lemma FindCharIs(s: string, c: char, from: nat, p: nat)
    requires from <= p < |s| && s[p] == c && forall k :: from <= k < p ==> s[k] != c
    ensures Find(s, [c], from) == Some(p)
  {
    AtChar(s, c, p);
    forall k: int | 0 <= k < p ensures At(s, [c], k) <==> s[k] == c {
      AtChar(s, c, k);
    }
    FindIs(s, [c], from, p);
  }

  lemma FindCharNone(s: string, c: char, from: nat)
    ensures Find(s, [c], from).None? <==> forall k :: from <= k < |s| ==> s[k] != c
  {
    forall k: int | 0 <= k < |s| ensures At(s, [c], k) <==> s[k] == c {
      AtChar(s, c, k);
    }
    var r := Find(s, [c], from);
    if r.Some? {
      AtChar(s, c, r.value);
    }
  }

  // ---------------------------------------------------------------- splitting

  lemma Assoc<T>(a: seq<T>, b: seq<T>, c: seq<T>)
    ensures a + (b + c) == (a + b) + c
  {
  }

  lemma SliceTail<T>(s: seq<T>, i: nat, n: nat)
    requires i + n <= |s|
    ensures s[i..][n..] == s[i + n..]
  {
  }

  /** Where the parts of a concatenation stand. */
  lemma Middle<T>(pre: seq<T>, mid: seq<T>, x: T, rest: seq<T>)
    ensures var s := ((pre + mid) + [x]) + rest;
            |pre| + |mid| < |s| && s[|pre|..|pre| + |mid|] == mid && s[|pre| + |mid|] == x
  {
  }

  /** Naive left-to-right splitting of the text from `off` on, empty pieces kept. */
  function Pieces(s: string, sep: string, off: nat): (ps: seq<string>)
    requires sep != "" && off <= |s|
    ensures |ps| >= 1
    decreases |s| - off
  {
    var p := Find(s, sep, off);
    if p.None? then [s[off..]] else [s[off..p.value]] + Pieces(s, sep, p.value + |sep|)
  }

  function Join(ps: seq<string>, sep: string): string {
    if |ps| == 0 then "" else if |ps| == 1 then ps[0] else ps[0] + sep + Join(ps[1..], sep)
  }

  function NonEmpty(ps: seq<string>): seq<string> {
    if |ps| == 0 then [] else if ps[0] == "" then NonEmpty(ps[1..]) else [ps[0]] + NonEmpty(ps[1..])
  }

  lemma JoinCons(head: string, ps: seq<string>, sep: string)
    requires |ps| >= 1
    ensures Join([head] + ps, sep) == head + sep + Join(ps, sep)
  {
    assert ([head] + ps)[1..] == ps;
  }

  /** Joining the pieces with the separator gives the text back. */
  lemma {:induction false} JoinPieces(s: string, sep: string, off: nat)
    requires sep != "" && off <= |s|
    ensures Join(Pieces(s, sep, off), sep) == s[off..]
    decreases |s| - off
  {
    var p := Find(s, sep, off);
    if p.Some? {
      JoinPieces(s, sep, p.value + |sep|);
      JoinCons(s[off..p.value], Pieces(s, sep, p.value + |sep|), sep);
      assert s[off..] == s[off..p.value] + s[p.value..p.value + |sep|] + s[p.value + |sep|..];
    }
  }

  /** The first occurrence of c from `from` on, when the slice before it has none. */
  lemma FindAfter(s: string, from: nat, mid: string, c: char)
    requires from + |mid| < |s| && s[from..from + |mid|] == mid && s[from + |mid|] == c
    requires c !in mid
    ensures Find(s, [c], from) == Some(from + |mid|)
  {
    forall k | from <= k < from + |mid| ensures s[k] != c {
      assert s[k] == mid[k - from];
    }
    FindCharIs(s, c, from, from + |mid|);
  }

  /** The first piece, when the text goes on with a piece, the separator and a rest. */
  lemma PiecesFirst(s: string, from: nat, mid: string, c: char, ps: seq<string>, all: seq<string>)
    requires all == [mid] + ps
    requires from + |mid| < |s| && s[from..from + |mid|] == mid && s[from + |mid|] == c
    requires c !in mid
    requires Pieces(s, [c], from + |mid| + 1) == ps
    ensures Pieces(s, [c], from) == all
  {
    FindAfter(s, from, mid, c);
  }

  lemma PiecesLast(pre: string, last: string, c: char, all: seq<string>)
    requires c !in last && all == [last]
    ensures Pieces(pre + last, [c], |pre|) == all
  {
    FindCharNone(pre + last, c, |pre|);
    assert (pre + last)[|pre|..] == last;
  }

  lemma HeadTail<T>(s: seq<T>)
    requires s != []
    ensures s == [s[0]] + s[1..]
    ensures |s| == 1 ==> s == [s[0]]
  {
  }

  lemma JoinMiddle(pre: string, ps: seq<string>, c: char)
    requires |ps| >= 2
    ensures var s := pre + Join(ps, [c]);
            var n := |pre| + |ps[0]|;
            n < |s| && s[|pre|..n] == ps[0] && s[n] == c && s == pre + ps[0] + [c] + Join(ps[1..], [c])
  {
    var rest := Join(ps[1..], [c]);
    Assoc(pre, ps[0] + [c], rest);
    Assoc(pre, ps[0], [c]);
    Middle(pre, ps[0], c, rest);
  }

  /** Splitting at a character undoes joining with it, when no piece contains it. */
  lemma {:induction false} PiecesJoin(pre: string, ps: seq<string>, c: char)
    requires |ps| >= 1
    requires forall i :: 0 <= i < |ps| ==> c !in ps[i]
    ensures Pieces(pre + Join(ps, [c]), [c], |pre|) == ps
    decreases |ps|, 1
  {
    HeadTail(ps);
    if |ps| == 1 {
      PiecesLast(pre, ps[0], c, ps);
    } else {
      JoinMiddle(pre, ps, c);
      var more := ps[1..];
      assert forall i :: 0 <= i < |more| ==> more[i] == ps[i + 1];
      PiecesStep(pre, ps[0], c, more);
    }
  }

  lemma {:induction false} PiecesStep(pre: string, mid: string, c: char, more: seq<string>)
    requires |more| >= 1 && c !in mid
    requires forall i :: 0 <= i < |more| ==> c !in more[i]
    ensures Pieces(pre + mid + [c] + Join(more, [c]), [c], |pre|) == [mid] + more
    decreases |more|, 2
  {
    hide Pieces, Find, Join;
    var rest := Join(more, [c]);
    Middle(pre, mid, c, rest);
    PiecesJoin(pre + mid + [c], more, c);
    PiecesFirst(pre + mid + [c] + rest, |pre|, mid, c, more, [mid] + more);
  }

  lemma NonEmptyCons(head: string, ps: seq<string>)
    ensures NonEmpty([head] + ps) == if head == "" then NonEmpty(ps) else [head] + NonEmpty(ps)
  {
    assert ([head] + ps)[1..] == ps;
  }

  /** Exactly the empty pieces are dropped, and the others keep their order. */
  lemma {:induction false} NonEmptyExactly(a: seq<string>, p: string, b: seq<string>)
    ensures NonEmpty(a + ([p] + b)) == NonEmpty(a) + if p == "" then NonEmpty(b) else [p] + NonEmpty(b)
    decreases |a|
  {
    if |a| == 0 {
      assert a + ([p] + b) == [p] + b;
      NonEmptyCons(p, b);
    } else {
      HeadTail(a);
      var more := a[1..] + ([p] + b);
      assert a + ([p] + b) == [a[0]] + more;
      NonEmptyCons(a[0], more);
      NonEmptyExactly(a[1..], p, b);
    }
  }

  /** What the text from `off` on contributes, in the order the loop finds it. */
  function Kept(s: string, sep: string, off: nat): seq<string>
    requires sep != ""
    decreases |s| - off
  {
    if off >= |s| then []
    else
      var p := Find(s, sep, off);
      if p.None? then [s[off..]]
      else if p.value == off then Kept(s, sep, p.value + |sep|)
      else [s[off..p.value]] + Kept(s, sep, p.value + |sep|)
  }

  lemma NonEmptyPieces(s: string, sep: string, off: nat)
    requires sep != "" && off <= |s|
    ensures var p := Find(s, sep, off);
            NonEmpty(Pieces(s, sep, off)) ==
            if p.None? then (if off == |s| then [] else [s[off..]])
            else
              var rest := NonEmpty(Pieces(s, sep, p.value + |sep|));
              if p.value == off then rest else [s[off..p.value]] + rest
  {
    var p := Find(s, sep, off);
    if p.Some? {
      NonEmptyCons(s[off..p.value], Pieces(s, sep, p.value + |sep|));
    }
  }

  lemma {:induction false} KeptIsNonEmptyPieces(s: string, sep: string, off: nat)
    requires sep != "" && off <= |s|
    ensures Kept(s, sep, off) == NonEmpty(Pieces(s, sep, off))
    decreases |s| - off
  {
    hide Pieces, NonEmpty, Find;
    NonEmptyPieces(s, sep, off);
    var p := Find(s, sep, off);
    if p.Some? {
      KeptIsNonEmptyPieces(s, sep, p.value + |sep|);
    }
  }

  lemma KeptLast(s: string, sep: string, off: nat)
    requires sep != "" && off < |s| && Find(s, sep, off).None?
    ensures Kept(s, sep, off) == [s[off..]]
  {
  }

  lemma KeptSkip(s: string, sep: string, off: nat)
    requires sep != "" && off < |s| && Find(s, sep, off) == Some(off)
    ensures Kept(s, sep, off) == Kept(s, sep, off + |sep|)
  {
  }

  lemma KeptHead(s: string, sep: string, off: nat, p: nat)
    requires sep != "" && off < |s| && Find(s, sep, off) == Some(p) && p != off
    ensures Kept(s, sep, off) == [s[off..p]] + Kept(s, sep, p + |sep|)
  {
  }

  lemma KeptPiece(out: seq<string>, s: string, sep: string, off: nat, p: nat)
    requires sep != "" && off < |s| && Find(s, sep, off) == Some(p) && p != off
    ensures out + Kept(s, sep, off) == (out + [s[off..p]]) + Kept(s, sep, p + |sep|)
  {
    KeptHead(s, sep, off, p);
    Assoc(out, [s[off..p]], Kept(s, sep, p + |sep|));
  }

  /** One round of Split's loop: nothing found, an empty piece, or a piece to keep. */
  lemma KeptStep(out: seq<string>, s: string, sep: string, off: nat)
    requires sep != "" && off < |s|
    ensures var p := Find(s, sep, off);
            var all := out + Kept(s, sep, off);
            && (p.None? ==> all == out + [s[off..]])
            && (p.Some? && p.value == off ==> all == out + Kept(s, sep, p.value + |sep|))
            && (p.Some? && p.value != off ==> all == (out + [s[off..p.value]]) + Kept(s, sep, p.value + |sep|))
  {
    var p := Find(s, sep, off);
    if p.None? {
      KeptLast(s, sep, off);
    } else if p.value == off {
      KeptSkip(s, sep, off);
    } else {
      KeptPiece(out, s, sep, off, p.value);
    }
  }

  /**
   Util::Split: appends to `arry` the non-empty pieces, left to right, and returns its new size.
   An empty separator would make the source loop forever; it is never passed one.
   */
  method Split(src: string, sep: string, arry: seq<string>) returns (out: seq<string>, size: nat)
    requires sep != ""
    ensures out == arry + NonEmpty(Pieces(src, sep, 0)) && size == |out|
  {
    out := arry;
    var offset := 0;
    ghost var goal := arry + Kept(src, sep, 0);
    while offset < |src|
      invariant 0 <= offset <= |src|
      invariant out + Kept(src, sep, offset) == goal
    {
      KeptStep(out, src, sep, offset);
      var pos := Find(src, sep, offset);
      if pos.None? {
        out := out + [src[offset..]];
        break;
      }
      if pos.value == offset {
        offset := pos.value + |sep|;
        continue;
      }
      out := out + [src[offset..pos.value]];
      offset := pos.value + |sep|;
    }
    assert out == goal;
    KeptIsNonEmptyPieces(src, sep, 0);
    size := |out|;
  }
}
