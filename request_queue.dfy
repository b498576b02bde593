/**
 * The request queue of the web server: request records, the singly linked
 * list that holds them, and `enqueue` with its two placement disciplines
 * (FIFO: append at the tail; SFF: splice after the first node whose file is
 * at least as large as the new one).
 *
 * `struct linked_list` is a value passed by value: it is the datatype
 * LinkedList. Its `head` points at nodes on the heap, which every copy of the
 * struct shares: that node chain is the class ListNodes, whose `records`
 * field is the sequence of requests read from the head along the `next`
 * pointers.
 */
module RequestQueue {

  /** The two kinds of list (`enum list_type`). */
  datatype ListType = FIFO | SFF

  /** One request: connection descriptor, path of the file, size of the file. */
  datatype RequestRecord = RequestRecord(fd: int, filepath: string, filesize: int)

  /** `new_request_record`: the record carries exactly the three given values (the path is copied). */
  function NewRequestRecord(fd: int, path: string, fsize: int): (r: RequestRecord)
    ensures r.fd == fd && r.filepath == path && r.filesize == fsize
  {
    RequestRecord(fd, path, fsize)
  }

  /** The chain of `list_node`s reachable from a non-NULL head, in list order. */
  class ListNodes {
    var records: seq<RequestRecord>

    /** A chain starts at an allocated head node, so it is never empty. */
    ghost predicate Valid()
      reads this
    {
      records != []
    }

    /** A freshly allocated node holding `r` whose `next` is NULL. */
    constructor (r: RequestRecord)
      ensures Valid() && records == [r]
    {
      records := [r];
    }
  }

  /** `struct linked_list`: kind, head pointer (null for NULL) and size counter. */
  datatype LinkedList = LinkedList(lltype: ListType, head: ListNodes?, size: int)

  /** `new_queue`: a list of the given kind with no nodes and size 0. */
  function NewQueue(t: ListType): (q: LinkedList)
    ensures q.head == null && q.size == 0 && q.lltype == t
  {
    LinkedList(t, null, 0)
  }

  /**
   * Where the SFF walk of `enqueue` stops: the first node whose file size is
   * at least `size`, or the last node when there is none before it.
   */
  function SffStop(s: seq<RequestRecord>, size: int): (i: nat)
    requires s != []
    ensures i < |s|
    ensures forall j :: 0 <= j < i ==> s[j].filesize < size
    ensures i == |s| - 1 || s[i].filesize >= size
  {
    if |s| == 1 || s[0].filesize >= size then 0 else 1 + SffStop(s[1..], size)
  }

  /** Only one position satisfies the stopping condition of the SFF walk. */
  lemma SffStopUnique(s: seq<RequestRecord>, size: int, i: nat)
    requires i < |s|
    requires forall j :: 0 <= j < i ==> s[j].filesize < size
    requires i == |s| - 1 || s[i].filesize >= size
    ensures i == SffStop(s, size)
  {
  }

  /** The position the new record takes in a non-empty chain of the given kind. */
  function SplicePosition(t: ListType, s: seq<RequestRecord>, size: int): (k: nat)
    requires s != []
    ensures 1 <= k <= |s|
  {
    match t
    case FIFO => |s|
    case SFF => SffStop(s, size) + 1
  }

  /** `s` with `r` placed at position `k`. */
  function InsertAt(s: seq<RequestRecord>, k: nat, r: RequestRecord): (u: seq<RequestRecord>)
    requires k <= |s|
    ensures |u| == |s| + 1 && u[k] == r
    ensures u[..k] == s[..k] && u[k + 1..] == s[k..]
  {
    s[..k] + [r] + s[k..]
  }

  /** The chain after `enqueue` has spliced `r` into the non-empty chain `s`. */
  function Spliced(t: ListType, s: seq<RequestRecord>, r: RequestRecord): (u: seq<RequestRecord>)
    requires s != []
    ensures |u| == |s| + 1 && u[0] == s[0]
    ensures u[SplicePosition(t, s, r.filesize)] == r
  {
    InsertAt(s, SplicePosition(t, s, r.filesize), r)
  }

  /**
   * `enqueue(list, r)`. The struct is a copy: the caller's `list` is never
   * changed, so a NULL head stays NULL (the node allocated for it is lost)
   * and the caller's `size` stays as it was. The nodes reached from a
   * non-NULL head are shared, so the splice into them is what persists.
   * The result is the copy's size after its increment.
   */
  method Enqueue(list: LinkedList, r: RequestRecord) returns (n: int)
    requires list.head != null ==> list.head.Valid()
    modifies list.head
    ensures n == list.size + 1
    ensures list.head != null ==>
      list.head.Valid() && list.head.records == Spliced(list.lltype, old(list.head.records), r)
  {
    var copy := list;
    if copy.head == null {
      var node := new ListNodes(r);
      copy := copy.(head := node);
    } else if copy.lltype == SFF {
      var nodes := copy.head.records;
      var iter := 0;
      while iter + 1 < |nodes| && nodes[iter].filesize < r.filesize
        invariant 0 <= iter < |nodes|
        invariant forall j :: 0 <= j < iter ==> nodes[j].filesize < r.filesize
      {
        iter := iter + 1;
      }
      SffStopUnique(nodes, r.filesize, iter);
      if iter + 1 == |nodes| {
        // the walk reached the last node: attach after it
        copy.head.records := nodes + [r];
      } else {
        // splice between iter and its old successor
        copy.head.records := nodes[..iter + 1] + [r] + nodes[iter + 1..];
      }
    } else {
      var nodes := copy.head.records;
      var iter := 0;
      while iter + 1 < |nodes|
        invariant 0 <= iter < |nodes|
      {
        iter := iter + 1;
      }
      copy.head.records := nodes[..iter + 1] + [r];
    }
    copy := copy.(size := copy.size + 1);
    n := copy.size;
  }

  /**
   * The chain after a splice holds the old records in their old relative
   * order with `r` added at the splice position, and nothing else.
   */
  lemma SplicedKeepsOrder(t: ListType, s: seq<RequestRecord>, r: RequestRecord)
    requires s != []
    ensures var u, k := Spliced(t, s, r), SplicePosition(t, s, r.filesize);
      |u| == |s| + 1 && u[k] == r && u[..k] + u[k + 1..] == s
    ensures multiset(Spliced(t, s, r)) == multiset(s) + multiset{r}
  {
  }

  /** FIFO: `r` becomes the last node and the nodes before it are the old chain. */
  lemma FifoAppends(s: seq<RequestRecord>, r: RequestRecord)
    requires s != []
    ensures var u := Spliced(FIFO, s, r); u[|u| - 1] == r && u[..|s|] == s
  {
  }

  /**
   * SFF on a non-empty chain: the head node stays first; `r` lands right after
   * the first node whose size is at least `r`'s, all nodes before that one are
   * smaller, and when no node before the last is large enough `r` goes after
   * the last node.
   */
  lemma SffPlacement(s: seq<RequestRecord>, r: RequestRecord)
    requires s != []
    ensures var u, k := Spliced(SFF, s, r), SplicePosition(SFF, s, r.filesize);
      && u[0] == s[0]
      && u[k] == r
      && (forall j :: 0 <= j < k - 1 ==> s[j].filesize < r.filesize)
      && (k < |s| ==> s[k - 1].filesize >= r.filesize)
      && ((forall j :: 0 <= j < |s| - 1 ==> s[j].filesize < r.filesize) ==> u == s + [r])
  {
  }

  /** A record of the given size on connection `fd`, for the examples below. */
  function Sized(fd: int, size: int): RequestRecord
  {
    RequestRecord(fd, "./f", size)
  }

  /**
   * The SFF list, which the declaration of `struct linked_list` calls the
   * sorted kind, is not kept sorted by size: a smaller file never goes
   * before the head, and a file goes after (not before) the first larger one.
   */
  lemma SffIsNotSorted()
    ensures Spliced(SFF, [Sized(1, 50)], Sized(2, 10)) == [Sized(1, 50), Sized(2, 10)]
    ensures Spliced(SFF, [Sized(1, 10), Sized(2, 30)], Sized(3, 20))
         == [Sized(1, 10), Sized(2, 30), Sized(3, 20)]
  {
  }

  /**
   * A chain whose head has size 50, after records of size 10 and then 30 are
   * enqueued, reads 50, 30, 10.
   */
  lemma SffArrivalExample()
    ensures Spliced(SFF, Spliced(SFF, [Sized(1, 50)], Sized(2, 10)), Sized(3, 30))
         == [Sized(1, 50), Sized(3, 30), Sized(2, 10)]
  {
  }

  /** Equal sizes: the newcomer goes right after the first equal-size node, not first among them. */
  lemma SffEqualSizes()
    ensures Spliced(SFF, [Sized(1, 20), Sized(2, 20)], Sized(3, 20))
         == [Sized(1, 20), Sized(3, 20), Sized(2, 20)]
  {
  }

  /**
   * A queue made by `new_queue` never gains a node through `enqueue`: each
   * call reports size 1 and the caller's list is still the empty one.
   */
  method EnqueueOnNewQueue(t: ListType, r1: RequestRecord, r2: RequestRecord)
    returns (n1: int, n2: int, q: LinkedList)
    ensures n1 == 1 && n2 == 1
    ensures q.head == null && q.size == 0 && q.lltype == t
  {
    q := NewQueue(t);
    n1 := Enqueue(q, r1);
    n2 := Enqueue(q, r2);
  }
}
