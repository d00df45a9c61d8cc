/**
 * The file list of the C renamer (renamer.c and old/renamer.c): a singly
 * linked list of (folder, file) entries, newest first, and the routines that
 * take it apart folder by folder: readDirectory, removeOneFolder, splitAll,
 * and the first checks of removeCommonWords in old/renamer.c.
 *
 * A list is described by the ghost sequence of its nodes, head first
 * (Linked). A char* or char[WORDSIZE] field is modelled by the string it
 * holds. A list** argument is a Cursor: a cell holding a list pointer.
 */
module FolderList {
  import SplitList

  const WordSize := 256

  class Entry {
    var folder: string
    var file: string
    var next: Entry?

    constructor (folder: string, file: string, next: Entry?)
      ensures this.folder == folder && this.file == file && this.next == next
    {
      this.folder := folder;
      this.file := file;
      this.next := next;
    }
  }

  /** A list** of the C code: the cell a list pointer is read from and written to. */
  class Cursor {
    var at: Entry?

    constructor (at: Entry?)
      ensures this.at == at
    {
      this.at := at;
    }
  }

  /** nodes, head first, form a NULL-terminated list. */
  ghost predicate Linked(nodes: seq<Entry>)
    reads nodes`next
  {
    (nodes != [] ==> nodes[|nodes| - 1].next == null) &&
    (forall i | 0 <= i < |nodes| - 1 :: nodes[i].next == nodes[i + 1])
  }

  /** The pointer a list of these nodes is handled by: its head, or NULL. */
  function First(nodes: seq<Entry>): (h: Entry?)
    ensures h == null <==> nodes == []
  {
    if nodes == [] then null else nodes[0]
  }

  /** The next of the node at k is the node at k + 1, or NULL for the last one. */
  lemma LinkedNext(nodes: seq<Entry>, k: nat)
    requires Linked(nodes) && k < |nodes|
    ensures nodes[k].next == if k + 1 < |nodes| then nodes[k + 1] else null
  {
    if k + 1 < |nodes| {
      assert nodes[k].next == nodes[k + 1];
    }
  }

  /** Two positions of a list hold different nodes: their runs to NULL differ in length. */
  lemma {:induction false} NoRepeat(nodes: seq<Entry>, i: nat, j: nat)
    requires Linked(nodes) && i < j < |nodes|
    ensures nodes[i] != nodes[j]
    decreases |nodes| - j
  {
    assert nodes[i].next == nodes[i + 1];
    if j < |nodes| - 1 {
      NoRepeat(nodes, i + 1, j + 1);
      assert nodes[j].next == nodes[j + 1];
    }
  }

  /**
   * addList (old/renamer.c): a fresh node with copies of folder and file
   * goes in front of existing. The fields are WORDSIZE arrays, so both names
   * and their NULs must fit. The old list is not changed.
   */
  method AddList(existing: Entry?, folder: string, file: string, ghost nodes: seq<Entry>) returns (n: Entry)
    requires |folder| < WordSize && |file| < WordSize
    ensures fresh(n) && n.folder == folder && n.file == file && n.next == existing
    ensures Linked(nodes) && First(nodes) == existing ==> Linked([n] + nodes)
  {
    n := new Entry(folder, file, existing);
  }

  // ---------------------------------------------------------------------
  // Taking one folder off the front of the list

  /**
   * The first k nodes share the head's folder and the node after them, if
   * any, does not: the run readDirectory and removeOneFolder take.
   */
  ghost predicate FolderRun(nodes: seq<Entry>, k: nat)
    reads nodes`folder
  {
    0 < k <= |nodes| &&
    (forall j | 0 <= j < k :: nodes[j].folder == nodes[0].folder) &&
    (k < |nodes| ==> nodes[k].folder != nodes[0].folder)
  }

  /** The run is determined by the list: there is only one such k. */
  lemma FolderRunUnique(nodes: seq<Entry>, k: nat, m: nat)
    requires FolderRun(nodes, k) && FolderRun(nodes, m)
    ensures k == m
  {
  }

  /**
   * readDirectory(new_list, current_list): *new_list becomes the head, the
   * maximal run of nodes in the head's folder is cut off after its last
   * node, and *current_list moves to the node after the run (NULL when the
   * run is the whole list). Folder and file of every node stay as they were.
   * The head's folder is read before the NULL check, so the list must not
   * be empty.
   */
  method ReadDirectory(newList: Cursor, current: Cursor, ghost nodes: seq<Entry>) returns (ghost k: nat)
    requires newList != current
    requires Linked(nodes) && nodes != [] && current.at == nodes[0]
    modifies newList, current, nodes`next
    ensures newList.at == nodes[0] && FolderRun(nodes, k)
    ensures current.at == if k < |nodes| then nodes[k] else null
    ensures Linked(nodes[..k]) && Linked(nodes[k..])
  {
    var folder := current.at.folder;
    newList.at := current.at;
    k := 1;
    while current.at.next != null && current.at.next.folder == folder
      modifies current
      invariant 0 < k <= |nodes| && current.at == nodes[k - 1] && folder == nodes[0].folder
      invariant forall j | 0 <= j < k :: nodes[j].folder == folder
      decreases |nodes| - k
    {
      LinkedNext(nodes, k - 1);
      current.at := current.at.next;
      k := k + 1;
    }
    LinkedNext(nodes, k - 1);
    assert FolderRun(nodes, k);
    var start := current.at.next;
    CutAfter(current.at, nodes, k);
    current.at := start;
  }

  /** The cut of readDirectory: the node at k - 1 ends its list, splitting the list in two. */
  method CutAfter(last: Entry, ghost nodes: seq<Entry>, ghost k: nat)
    requires Linked(nodes) && 0 < k <= |nodes| && last == nodes[k - 1]
    modifies last`next
    ensures Linked(nodes[..k]) && Linked(nodes[k..])
  {
    forall j | 0 <= j < |nodes| && j != k - 1
      ensures nodes[j] != last
    {
      if j < k - 1 {
        NoRepeat(nodes, j, k - 1);
      } else {
        NoRepeat(nodes, k - 1, j);
      }
    }
    last.next := null;
    assert forall i | 0 <= i < |nodes| - 1 && i != k - 1 :: nodes[i].next == nodes[i + 1];
  }

  /** The global CURRENT_FOLDER_SIZE of old/renamer.c, -1 until a folder is taken. */
  class Session {
    var currentFolderSize: int

    constructor ()
      ensures currentFolderSize == -1
    {
      currentFolderSize := -1;
    }
  }

  /** The growing result array of removeOneFolder: a copy of old, one slot longer, with file last. */
  method Grow(prior: array?<string>, words: nat, file: string) returns (grown: array<string>)
    requires words > 0 <==> prior != null
    requires prior != null ==> prior.Length == words
    ensures fresh(grown) && grown.Length == words + 1 && grown[words] == file
    ensures prior != null ==> grown[..words] == prior[..]
  {
    grown := new string[words + 1];
    var i := 0;
    while i < words
      invariant 0 <= i <= words
      invariant prior != null ==> grown[..i] == prior[..i]
    {
      grown[i] := prior[i];
      i := i + 1;
    }
    grown[words] := file;
  }

  /**
   * removeOneFolder(fl): NULL for a NULL fl. Otherwise it collects the files
   * of the maximal run in the head's folder, in list order, moves *fl past
   * them and sets CURRENT_FOLDER_SIZE to their number. The head's folder is
   * read unchecked, so *fl must not be NULL.
   */
  method RemoveOneFolder(session: Session, fl: Cursor?, ghost nodes: seq<Entry>)
    returns (result: array?<string>, ghost k: nat)
    requires fl != null ==> Linked(nodes) && nodes != [] && fl.at == nodes[0]
    modifies session, fl
    ensures fl == null ==> result == null && session.currentFolderSize == old(session.currentFolderSize)
    ensures fl != null ==> result != null && fresh(result) && FolderRun(nodes, k) && result.Length == k
    ensures fl != null ==> forall j | 0 <= j < k :: result[j] == nodes[j].file
    ensures fl != null ==> fl.at == (if k < |nodes| then nodes[k] else null) && session.currentFolderSize == k
  {
    if fl == null {
      return null, 0;
    }
    var folder := fl.at.folder;
    var words: nat := 0;
    result := null;
    while fl.at != null
      invariant words <= |nodes| && fl.at == (if words < |nodes| then nodes[words] else null)
      invariant forall j | 0 <= j < words :: nodes[j].folder == folder
      invariant folder == nodes[0].folder
      invariant words > 0 <==> result != null
      invariant result != null ==> fresh(result) && result.Length == words
      invariant result != null ==> forall j | 0 <= j < words :: result[j] == nodes[j].file
      decreases |nodes| - words
    {
      if folder != fl.at.folder {
        break;
      }
      LinkedNext(nodes, words);
      var grown := Grow(result, words, fl.at.file);
      result := grown;
      words := words + 1;
      fl.at := fl.at.next;
    }
    session.currentFolderSize := words;
    k := words;
  }

  /** How removeCommonWords in old/renamer.c starts. */
  datatype Start = Warned | Alone | Matching

  /**
   * removeCommonWords: with CURRENT_FOLDER_SIZE below 1 it warns and
   * returns, with 1 it returns, and only with more strings does it start
   * matching.
   */
  method RemoveCommonWords(session: Session, s: array<string>) returns (start: Start)
    ensures start == Warned <==> session.currentFolderSize < 1
    ensures start == Alone <==> session.currentFolderSize == 1
    ensures start == Matching <==> session.currentFolderSize > 1
  {
    if session.currentFolderSize < 1 {
      return Warned;
    } else if session.currentFolderSize == 1 {
      return Alone;
    }
    start := Matching;
  }

  // ---------------------------------------------------------------------
  // splitAll

  /** ns is the list split(file, c) returns, headed by r. */
  ghost predicate SplitOf(ns: seq<SplitList.Split>, r: SplitList.Split?, file: string, c: char)
    reads ns
  {
    SplitList.Chain(ns) && ns != [] && r == ns[0] &&
    SplitList.Texts(ns) == SplitList.Reversed(SplitList.Tokens(file, c))
  }

  /** The counting loop of splitAll: the length of a non-empty list. */
  method CountFiles(l: Entry, ghost nodes: seq<Entry>) returns (files: int)
    requires Linked(nodes) && First(nodes) == l
    ensures files == |nodes|
  {
    var cur: Entry := l;
    files := 1;
    while cur.next != null
      invariant 0 < files <= |nodes| && cur == nodes[files - 1]
      decreases |nodes| - files
    {
      LinkedNext(nodes, files - 1);
      cur := cur.next;
      files := files + 1;
    }
    LinkedNext(nodes, files - 1);
  }

  /** One step of splitAll: result[i] = split(file, c), the earlier entries kept. */
  method SplitInto(result: array<SplitList.Split?>, i: nat, file: string, c: char,
                   ghost nodes: seq<Entry>, ghost prior: seq<seq<SplitList.Split>>)
    returns (ghost lists: seq<seq<SplitList.Split>>)
    requires i < result.Length && i < |nodes| && file == nodes[i].file && |prior| == i
    requires forall j | 0 <= j < i :: SplitOf(prior[j], result[j], nodes[j].file, c)
    modifies result
    ensures |lists| == i + 1
    ensures forall j | 0 <= j < i + 1 :: SplitOf(lists[j], result[j], nodes[j].file, c)
  {
    var r, ns := SplitList.SplitText(file, c);
    result[i] := r;
    lists := prior + [ns];
    assert forall j | 0 <= j < i :: lists[j] == prior[j];
  }

  /**
   * splitAll(l, c, result_len): NULL for an empty list. Otherwise an array
   * with one entry per node, in list order, each the splitlist split makes
   * of that node's file; result_len receives the number of nodes.
   */
  method SplitAll(l: Entry?, c: char, ghost nodes: seq<Entry>)
    returns (result: array?<SplitList.Split?>, files: int, ghost lists: seq<seq<SplitList.Split>>)
    requires Linked(nodes) && First(nodes) == l
    ensures l == null ==> result == null
    ensures l != null ==> result != null && fresh(result) && files == result.Length == |nodes| == |lists|
    ensures l != null ==> forall i | 0 <= i < |lists| :: SplitOf(lists[i], result[i], nodes[i].file, c)
  {
    if l == null {
      return null, 0, [];
    }
    files := CountFiles(l, nodes);
    result := new SplitList.Split?[files];
    var at: Entry? := l;
    lists := [];
    var i := 0;
    while i < files
      invariant 0 <= i <= files == |nodes| == result.Length && |lists| == i
      invariant at == if i < files then nodes[i] else null
      invariant forall j | 0 <= j < i :: SplitOf(lists[j], result[j], nodes[j].file, c)
    {
      LinkedNext(nodes, i);
      lists := SplitInto(result, i, at.file, c, nodes, lists);
      at := at.next;
      i := i + 1;
    }
  }
}
