/**
 * The splitlist of the C renamer (renamer.c, with the same routines in
 * old/renamer.c): a doubly linked list of strings whose nodes are rewired in
 * place, and split, which tokenises a name into such a list. A char* that
 * split only reads is modelled by the string it holds, so its NUL test is
 * the end of that string.
 *
 * A well-formed list is described by the ghost sequence of its nodes, head
 * first (Chain); Texts reads the strings along it.
 */
module SplitList {
  import opened PyStr

  class Split {
    var s: string
    var next: Split?
    var prev: Split?

    /** The malloc of addSplit with its three assignments. */
    constructor (s: string, next: Split?)
      ensures this.s == s && this.next == next && prev == null
    {
      this.s := s;
      this.next := next;
      prev := null;
    }
  }

  /**
   * nodes, head first, form a NULL-terminated doubly linked list. No node
   * occurs twice: ChainDistinct derives that from the links.
   */
  ghost predicate Chain(nodes: seq<Split>)
    reads nodes
  {
    (nodes != [] ==> nodes[0].prev == null && nodes[|nodes| - 1].next == null) &&
    (forall i | 0 <= i < |nodes| - 1 :: nodes[i].next == nodes[i + 1] && nodes[i + 1].prev == nodes[i])
  }

  /** The pointer a list of these nodes is handled by: its head, or NULL. */
  function Head(nodes: seq<Split>): (h: Split?)
    ensures h == null <==> nodes == []
  {
    if nodes == [] then null else nodes[0]
  }

  ghost function Texts(nodes: seq<Split>): (r: seq<string>)
    reads nodes`s
    ensures |r| == |nodes|
    decreases |nodes|
  {
    if nodes == [] then [] else [nodes[0].s] + Texts(nodes[1..])
  }

  // ---------------------------------------------------------------------
  // addSplit, removeSplit, rewindSplit, splitCopy

  /**
   * addSplit: a new node holding x becomes the head, in front of existing.
   * On a well-formed list it gives a well-formed list one node longer; no
   * string of the old list changes (TextsCons then gives its Texts).
   */
  method AddSplit(existing: Split?, x: string, ghost nodes: seq<Split>) returns (n: Split)
    modifies existing
    ensures fresh(n) && n.s == x && n.next == existing && n.prev == null
    ensures existing != null ==>
      existing.prev == n && existing.next == old(existing.next) && existing.s == old(existing.s)
    ensures old(Chain(nodes)) && Head(nodes) == existing ==> Chain([n] + nodes)
  {
    n := new Split(x, existing);
    if existing != null {
      existing.prev := n;
    }
  }

  /**
   * removeSplit: the node's neighbours are linked to each other and its next
   * is returned; NULL gives NULL. The node itself is not changed (C frees it).
   */
  method RemoveSplit(toRemove: Split?, ghost nodes: seq<Split>, ghost k: nat) returns (r: Split?)
    modifies if toRemove == null then {} else {toRemove.next, toRemove.prev}
    ensures toRemove == null ==> r == null
    ensures toRemove != null ==> r == old(toRemove.next)
    ensures toRemove != null && r != null ==> r.prev == old(toRemove.prev)
    ensures toRemove != null && old(toRemove.prev) != null ==> old(toRemove.prev).next == r
    ensures old(Chain(nodes)) && k < |nodes| && nodes[k] == toRemove ==>
      Chain(nodes[..k] + nodes[k + 1..]) &&
      Texts(nodes[..k] + nodes[k + 1..]) == old(Texts(nodes))[..k] + old(Texts(nodes))[k + 1..] &&
      r == (if k + 1 < |nodes| then nodes[k + 1] else null)
  {
    ghost var wasChain := Chain(nodes);
    if toRemove == null {
      return null;
    }
    var nextp := toRemove.next;
    var prevp := toRemove.prev;
    ghost var inChain := wasChain && k < |nodes| && nodes[k] == toRemove;
    if inChain {
      ChainDistinct(nodes);
      assert prevp == if k > 0 then nodes[k - 1] else null;
      assert nextp == if k + 1 < |nodes| then nodes[k + 1] else null;
    }
    if nextp != null {
      nextp.prev := prevp;
    }
    if prevp != null {
      prevp.next := nextp;
    }
    r := nextp;
    if inChain {
      ghost var m := nodes[..k] + nodes[k + 1..];
      assert forall i | 0 <= i < |m| :: m[i] == if i < k then nodes[i] else nodes[i + 1];
      forall i | 0 <= i < |nodes| && i != k - 1
        ensures nodes[i].next == old(nodes[i].next)
      {
        assert nodes[i] != prevp;
      }
      forall i | 0 <= i < |nodes| && i != k + 1
        ensures nodes[i].prev == old(nodes[i].prev)
      {
        assert nodes[i] != nextp;
      }
      forall i | 0 <= i < |m| - 1
        ensures m[i].next == m[i + 1] && m[i + 1].prev == m[i]
      {
        if i + 1 < k {
          assert m[i] == nodes[i] && m[i + 1] == nodes[i + 1];
          assert old(nodes[i].next) == nodes[i + 1] && old(nodes[i + 1].prev) == nodes[i];
        } else if i + 1 == k {
          assert m[i] == prevp && m[i + 1] == nextp;
        } else {
          assert m[i] == nodes[i + 1] && m[i + 1] == nodes[i + 2];
          assert old(nodes[i + 1].next) == nodes[i + 2] && old(nodes[i + 2].prev) == nodes[i + 1];
        }
      }
      if m != [] {
        assert m[0] == if k == 0 then nextp else nodes[0];
        assert m[0].prev == null;
        assert m[|m| - 1] == if k == |nodes| - 1 then prevp else nodes[|nodes| - 1];
        assert m[|m| - 1].next == null;
      }
      assert Chain(m);
      assert Texts(nodes) == old(Texts(nodes));
      TextsRemoved(nodes, k);
    }
  }

  /**
   * rewindSplit: follows prev from any node of a list back to its head;
   * NULL gives NULL.
   */
  method RewindSplit(l: Split?, ghost nodes: seq<Split>, ghost k: nat) returns (r: Split?)
    requires l != null ==> Chain(nodes) && k < |nodes| && nodes[k] == l
    ensures r == if l == null then null else nodes[0]
  {
    if l == null {
      return null;
    }
    var cur: Split := l;
    ghost var i: nat := k;
    while cur.prev != null
      invariant i < |nodes| && cur == nodes[i]
      invariant i > 0 ==> nodes[i].prev == nodes[i - 1]
      decreases i
    {
      cur := cur.prev;
      i := i - 1;
    }
    return cur;
  }

  /**
   * splitCopy(new, current): copies the strings from current to the end of
   * its list, in order, onto the front of the list *new (returned here as the
   * new head). Each copy is a fresh node; the strings themselves are shared.
   */
  method SplitCopy(dst: Split?, current: Split, ghost nodes: seq<Split>, ghost k: nat, ghost dnodes: seq<Split>,
                   ghost texts: seq<string>)
    returns (r: Split, ghost copied: seq<Split>)
    requires Chain(nodes) && k < |nodes| && nodes[k] == current
    requires |texts| == |nodes| - k && forall i | 0 <= i < |texts| :: nodes[k + i].s == texts[i]
    requires Chain(dnodes) && Head(dnodes) == dst
    modifies dst
    decreases |nodes| - k
    ensures dst != null ==> dst.s == old(dst.s)
    ensures copied != [] && r == copied[0] && fresh(r)
    ensures forall n | n in copied :: fresh(n)
    ensures Chain(copied + dnodes)
    ensures |copied| == |texts| && forall i | 0 <= i < |copied| :: copied[i].s == texts[i]
  {
    var rest: Split? := dst;
    ghost var tail: seq<Split> := [];
    if current.next != null {
      rest, tail := SplitCopy(dst, current.next, nodes, k + 1, dnodes, texts[1..]);
    } else {
      ChainNext(nodes, k);
    }
    r := AddSplit(rest, current.s, tail + dnodes);
    copied := [r] + tail;
    assert copied + dnodes == [r] + (tail + dnodes);
  }

  /** Two positions of a list hold different nodes: their runs to NULL differ in length. */
  lemma {:induction false} NoRepeat(nodes: seq<Split>, i: nat, j: nat)
    requires Chain(nodes) && i < j < |nodes|
    ensures nodes[i] != nodes[j]
    decreases |nodes| - j
  {
    assert nodes[i].next == nodes[i + 1];
    if j < |nodes| - 1 {
      NoRepeat(nodes, i + 1, j + 1);
      assert nodes[j].next == nodes[j + 1];
    }
  }

  /** The nodes of a list are pairwise distinct. */
  lemma ChainDistinct(nodes: seq<Split>)
    requires Chain(nodes)
    ensures forall i, j | 0 <= i < j < |nodes| :: nodes[i] != nodes[j]
  {
    forall i, j | 0 <= i < j < |nodes|
      ensures nodes[i] != nodes[j]
    {
      NoRepeat(nodes, i, j);
    }
  }

  /** The next of a list's node at k is the node at k + 1, or NULL for the last. */
  lemma ChainNext(nodes: seq<Split>, k: nat)
    requires Chain(nodes) && k < |nodes|
    ensures nodes[k].next == if k + 1 < |nodes| then nodes[k + 1] else null
  {
    if k + 1 < |nodes| {
      assert nodes[k].next == nodes[k + 1];
    }
  }

  lemma {:induction false} TextsAt(nodes: seq<Split>)
    ensures forall i | 0 <= i < |nodes| :: Texts(nodes)[i] == nodes[i].s
    decreases |nodes|
  {
    if nodes != [] {
      TextsAt(nodes[1..]);
    }
  }

  lemma TextsRemoved(nodes: seq<Split>, k: nat)
    requires k < |nodes|
    ensures Texts(nodes[..k] + nodes[k + 1..]) == Texts(nodes)[..k] + Texts(nodes)[k + 1..]
  {
    var m := nodes[..k] + nodes[k + 1..];
    var t := Texts(nodes);
    var u := Texts(m);
    TextsAt(nodes);
    TextsAt(m);
    forall i | 0 <= i < |m|
      ensures u[i] == (t[..k] + t[k + 1..])[i]
    {
      if i < k {
        assert m[i] == nodes[i];
      } else {
        assert m[i] == nodes[i + 1];
      }
    }
  }

  // ---------------------------------------------------------------------
  // split: the tokens of a string

  /** The pieces of ps that are not empty, in order. */
  function NonEmpty(ps: seq<string>): (r: seq<string>)
    ensures |r| <= |ps|
    ensures forall w | w in r :: w != [] && w in ps
    decreases |ps|
  {
    if ps == [] then []
    else if ps[0] == [] then NonEmpty(ps[1..])
    else [ps[0]] + NonEmpty(ps[1..])
  }

  /**
   * The strings split(t, c) adds to its list, in the order it adds them: the
   * non-empty pieces of t between separators, then the last piece, which is
   * added even when it is empty.
   */
  function Tokens(t: string, c: char): (r: seq<string>)
    ensures r != [] && forall w | w in r :: c !in w
    ensures forall i | 0 <= i < |r| - 1 :: r[i] != []
    ensures c !in t ==> r == [t]
  {
    var ps := SplitOn(t, c);
    var kept := NonEmpty(ps[..|ps| - 1]);
    assert forall i | 0 <= i < |kept| :: kept[i] in kept;
    kept + [ps[|ps| - 1]]
  }

  /** NonEmpty changes nothing when no piece is empty. */
  lemma {:induction false} NonEmptyAll(ps: seq<string>)
    requires forall i | 0 <= i < |ps| :: ps[i] != []
    ensures NonEmpty(ps) == ps
    decreases |ps|
  {
    if ps != [] {
      NonEmptyAll(ps[1..]);
    }
  }

  /**
   * When no two separators are adjacent and t does not start with one, the
   * tokens are exactly the pieces between separators, and joining them with
   * c gives t back.
   */
  lemma TokensRejoin(t: string, c: char)
    requires forall i | 0 <= i < |SplitOn(t, c)| - 1 :: SplitOn(t, c)[i] != []
    ensures Tokens(t, c) == SplitOn(t, c)
    ensures Join([c], Tokens(t, c)) == t
  {
    var ps := SplitOn(t, c);
    var front := ps[..|ps| - 1];
    forall i | 0 <= i < |front|
      ensures front[i] != []
    {
      assert front[i] == ps[i];
    }
    NonEmptyAll(front);
    assert ps[..|ps| - 1] + [ps[|ps| - 1]] == ps;
    JoinSplitOn(t, c);
  }

  /** The pieces split has added once its tail stands at tail. */
  function Done(t: string, c: char, tail: nat): seq<string>
    requires tail <= |t|
  {
    if tail == 0 then [] else NonEmpty(SplitOn(t[..tail - 1], c))
  }

  function Reversed<T>(xs: seq<T>): (r: seq<T>)
    ensures |r| == |xs| && forall i | 0 <= i < |xs| :: r[i] == xs[|xs| - 1 - i]
  {
    seq(|xs|, i requires 0 <= i < |xs| => xs[|xs| - 1 - i])
  }

  lemma {:induction false} NonEmptyAppend(ps: seq<string>, w: string)
    ensures NonEmpty(ps + [w]) == if w == [] then NonEmpty(ps) else NonEmpty(ps) + [w]
    decreases |ps|
  {
    if ps == [] {
      assert NonEmpty([w]) == if w == [] then [] else [w] by {
        assert [w][1..] == [];
      }
    } else {
      assert (ps + [w])[1..] == ps[1..] + [w];
      NonEmptyAppend(ps[1..], w);
    }
  }

  /** A separator at head closes the piece t[tail..head]. */
  lemma DoneStep(t: string, c: char, tail: nat, head: nat)
    requires tail <= head < |t| && t[head] == c && c !in t[tail..head]
    requires tail == 0 || t[tail - 1] == c
    ensures Done(t, c, head + 1) ==
      if head > tail then Done(t, c, tail) + [t[tail..head]] else Done(t, c, tail)
  {
    var w := t[tail..head];
    if tail == 0 {
      assert t[..head] == w;
      NonEmptyAppend([], w);
    } else {
      assert t[..head] == t[..tail - 1] + [c] + w;
      SplitOnJoin(t[..tail - 1], w, c);
      NonEmptyAppend(SplitOn(t[..tail - 1], c), w);
    }
  }

  /** At the end of t the pieces added and the final piece are the tokens. */
  lemma DoneLast(t: string, c: char, tail: nat)
    requires tail <= |t| && c !in t[tail..]
    requires tail == 0 || t[tail - 1] == c
    ensures Done(t, c, tail) + [t[tail..]] == Tokens(t, c)
  {
    var ps := SplitOn(t, c);
    var b := t[tail..];
    if tail == 0 {
      assert b == t;
      Snoc(ps, [], b);
    } else {
      var a := t[..tail - 1];
      assert t == a + [c] + b;
      SplitOnJoin(a, b, c);
      Snoc(ps, SplitOn(a, c), b);
    }
  }

  lemma Snoc<T>(xs: seq<T>, front: seq<T>, last: T)
    requires xs == front + [last]
    ensures |xs| > 0 && xs[..|xs| - 1] == front && xs[|xs| - 1] == last
  {
  }

  /** The list headed by head is nodes, and reads texts backwards. */
  ghost predicate Spells(nodes: seq<Split>, head: Split?, texts: seq<string>)
    reads nodes
  {
    Chain(nodes) && Head(nodes) == head &&
    |nodes| == |texts| && forall i | 0 <= i < |nodes| :: nodes[i].s == texts[|texts| - 1 - i]
  }

  lemma SpellsTexts(nodes: seq<Split>, head: Split?, texts: seq<string>)
    requires Spells(nodes, head, texts)
    ensures Texts(nodes) == Reversed(texts)
  {
    TextsAt(nodes);
  }

  /** addSplit as split uses it: the piece added last is read first. */
  method Prepend(list: Split?, piece: string, ghost nodes: seq<Split>, ghost texts: seq<string>)
    returns (n: Split)
    requires Spells(nodes, list, texts)
    modifies list
    ensures fresh(n) && Spells([n] + nodes, n, texts + [piece])
  {
    n := AddSplit(list, piece, nodes);
    assert forall i | 0 <= i < |nodes| :: ([n] + nodes)[i + 1] == nodes[i];
  }

  /**
   * Where split stands in the string t: tail and head bound the piece being
   * read, which has no separator yet, tail follows a separator (or is the
   * start), and added holds the pieces added so far.
   */
  ghost predicate Scanning(t: string, c: char, head: nat, tail: nat, added: seq<string>)
  {
    tail <= head <= |t| && c !in t[tail..head] && (tail == 0 || t[tail - 1] == c) &&
    added == Done(t, c, tail)
  }

  lemma ScanOther(t: string, c: char, head: nat, tail: nat, added: seq<string>)
    requires Scanning(t, c, head, tail, added) && head < |t| && t[head] != c
    ensures Scanning(t, c, head + 1, tail, added)
  {
    assert t[tail..head + 1] == t[tail..head] + [t[head]];
  }

  lemma ScanSeparator(t: string, c: char, head: nat, tail: nat, added: seq<string>, after: seq<string>)
    requires Scanning(t, c, head, tail, added) && head < |t| && t[head] == c
    requires after == if head > tail then added + [t[tail..head]] else added
    ensures Scanning(t, c, head + 1, head + 1, after)
  {
    DoneStep(t, c, tail, head);
    assert t[head + 1..head + 1] == [];
  }

  lemma ScanEnd(t: string, c: char, tail: nat, added: seq<string>)
    requires Scanning(t, c, |t|, tail, added)
    ensures added + [t[tail..|t|]] == Tokens(t, c)
  {
    DoneLast(t, c, tail);
    assert t[tail..|t|] == t[tail..];
  }

  /**
   * A separator at head: the piece s[tail..head] is added to the list when
   * it is non-empty, and the scan restarts just after the separator.
   */
  method ClosePiece(s: string, c: char, head: nat, tail: nat, piece: string,
                    list: Split?, ghost nodes: seq<Split>, ghost added: seq<string>)
    returns (list': Split?, ghost nodes': seq<Split>, ghost added': seq<string>)
    requires Scanning(s, c, head, tail, added) && head < |s| && s[head] == c
    requires piece == s[tail..head]
    requires Spells(nodes, list, added)
    modifies list
    ensures Scanning(s, c, head + 1, head + 1, added')
    ensures Spells(nodes', list', added')
    ensures list' == list || fresh(list')
  {
    list', nodes', added' := list, nodes, added;
    if head > tail {
      list' := Prepend(list, piece, nodes, added);
      nodes' := [list'] + nodes;
      added' := added + [piece];
    }
    ScanSeparator(s, c, head, tail, added, added');
  }

  /**
   * split (head and tail pointers): walks s up to its end (the NUL of the C
   * string); each separator closes the piece since the previous one, which
   * is added when non-empty; the piece after the last separator is always
   * added. addSplit prepends, so the list read from its head holds the tokens
   * in reverse. Nothing that existed before the call is changed.
   */
  method SplitText(s: string, c: char) returns (result: Split, ghost nodes: seq<Split>)
    ensures Chain(nodes) && nodes != [] && result == nodes[0]
    ensures Texts(nodes) == Reversed(Tokens(s, c))
  {
    var list: Split? := null;
    nodes := [];
    ghost var added: seq<string> := [];
    var head, tail := 0, 0;
    while head < |s|
      invariant Scanning(s, c, head, tail, added)
      invariant Spells(nodes, list, added) && (list == null || fresh(list))
      decreases |s| - head
    {
      if s[head] == c {
        var piece := s[tail..head];
        list, nodes, added := ClosePiece(s, c, head, tail, piece, list, nodes, added);
        head := head + 1;
        tail := head;
      } else {
        ScanOther(s, c, head, tail, added);
        head := head + 1;
      }
    }
    var piece := s[tail..head];
    ScanEnd(s, c, tail, added);
    result := Prepend(list, piece, nodes, added);
    nodes := [result] + nodes;
    added := added + [piece];
    SpellsTexts(nodes, result, added);
  }

  /** The copying loop of the index-based split: the characters s[tail..head]. */
  method CopyPiece(s: string, tail: nat, head: nat) returns (w: string)
    requires tail <= head <= |s|
    ensures w == s[tail..head]
  {
    w := "";
    var j := 0;
    while j < head - tail
      invariant 0 <= j <= head - tail && w == s[tail..tail + j]
    {
      w := w + [s[j + tail]];
      j := j + 1;
    }
  }

  /**
   * The index-based split of the older renamer: i runs over the string, head
   * keeps pace with it and tail marks the start of the current piece; pieces
   * are copied character by character. It adds the same tokens as SplitText.
   */
  method SplitIndexed(s: string, c: char) returns (result: Split, ghost nodes: seq<Split>)
    ensures Chain(nodes) && nodes != [] && result == nodes[0]
    ensures Texts(nodes) == Reversed(Tokens(s, c))
  {
    var list: Split? := null;
    nodes := [];
    ghost var added: seq<string> := [];
    var head, tail := 0, 0;
    var i := 0;
    while i < |s|
      invariant head == i && Scanning(s, c, head, tail, added)
      invariant Spells(nodes, list, added) && (list == null || fresh(list))
    {
      if s[i] == c {
        var piece := CopyPiece(s, tail, head);
        list, nodes, added := ClosePiece(s, c, head, tail, piece, list, nodes, added);
        head := head + 1;
        tail := head;
      } else {
        ScanOther(s, c, head, tail, added);
        head := head + 1;
      }
      i := i + 1;
    }
    var piece := CopyPiece(s, tail, head);
    ScanEnd(s, c, tail, added);
    result := Prepend(list, piece, nodes, added);
    nodes := [result] + nodes;
    added := added + [piece];
    SpellsTexts(nodes, result, added);
  }
}
