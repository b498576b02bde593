# Request handling and request queue of a small static web server

This project models, in Dafny, the request module of a small multi-threaded
static-content web server (`template/request.c`):

- the request record (connection descriptor, file path, file size) and the
  singly linked request list with its two kinds, FIFO and SFF
  (shortest file first), and `enqueue`, which splices a new record into the
  list;
- `request_parse_uri`, which splits a request URI into a file name and CGI
  arguments and tells static from dynamic requests;
- `request_get_filetype`, which picks a Content-Type from a file name;
- the decision taken by `request_handle`: which error response a request
  gets (501, 404, 403, 501) or whether it reaches the point where it would
  be added to the queue.

Modules:

- `CStrings` (`cstrings.dfy`): the C library routines the code relies on
  (`strstr`, `index`, `strcasecmp`) as functions over strings, each proved
  against a direct definition (an occurrence at some position, the first
  occurrence, character-wise equality after `tolower`).
- `RequestQueue` (`request_queue.dfy`): records, lists and `Enqueue`.
  `struct linked_list` is passed to `enqueue` by value, so it is a datatype
  (`LinkedList`) whose `head` points to a shared heap object, the class
  `ListNodes`, holding the records of the node chain in list order.
  `Enqueue` is a method that copies the struct, walks an index standing for
  the C pointer `iter` with the same loop conditions, splices the new record
  into the shared chain, increments the copy's size and returns it.
- `RequestParse` (`request_parse.dfy`): `ParseUri` and `FileType`.
- `RequestHandle` (`request_handle.dfy`): `Decide`, with the request line
  and the result of `stat` as inputs.

## What the code does with the SFF list

The declaration of `struct linked_list` (template/request.c:52-53) calls the
SFF list the sorted kind, and the name stands for shortest file first: the
intended order is non-decreasing file size, so that the smallest file is
served first. The code does something else, and the model follows the code:

- the SFF walk stops at the first node whose size is at least the new one
  (or at the last node) and inserts the new node after it, never before the
  head; so `[50]` then `10` gives `[50, 10]`, `[10, 30]` then `20` gives
  `[10, 30, 20]`, and `[20a, 20b]` then `20c` gives `[20a, 20c, 20b]`
  (`SffIsNotSorted`, `SffEqualSizes`). The list is not kept sorted.
- `enqueue` receives the list by value: on an empty list the new head node
  and the size increment are lost to the caller, so a list made by
  `new_queue` never gains a node (`EnqueueOnNewQueue`); on a non-empty list
  the splice into the shared nodes persists but the caller's `size` does not
  change. The return value is the caller's size plus one.
- There is no dequeue, no capacity, no locking and no worker pool in the code.

## Model

| member | source | states |
|---|---|---|
| `CStrings.Contains` | template/request.c:196 | `strstr(s, pat) != NULL` holds exactly when `pat` occurs in `s` at some position |
| `CStrings.IndexOf` | template/request.c:210 | `index(s, c)` is None exactly when `c` does not occur, otherwise the position of the first `c` |
| `CStrings.CaseEqual` | template/request.c:295 | `strcasecmp(a, b) == 0` exactly when the strings have equal length and agree after lowering A-Z |
| `CStrings.CaseEqualGet` | template/request.c:295 | the method equals "GET" ignoring case exactly when it is three letters G/g, E/e, T/t |
| `RequestQueue.NewRequestRecord` | template/request.c:19-26 | the record holds the given descriptor, a copy of the path and the given size |
| `RequestQueue.NewQueue` | template/request.c:66-73 | a new list has no nodes, size 0 and the requested kind |
| `RequestQueue.ListNodes.constructor` | template/request.c:79-81 | a freshly allocated node holds the record and has no successor (as also at lines 101-103, 110-112, 125-127): the chain it starts is exactly that record |
| `RequestQueue.SplicePosition` | template/request.c:89-123 | where the `iter` walk leaves the new record: after the last node for FIFO (lines 119-123), after the SFF stop node for SFF; always after the head and at most at the end |
| `RequestQueue.Spliced` | template/request.c:98-127 | the chain that results from a splice: one node longer, same head, the record at the splice position |
| `RequestQueue.SffStop` | template/request.c:89-96 | the SFF walk stops at the first node with size at least the new one's, or at the last node; all nodes before it are smaller |
| `RequestQueue.Enqueue` | template/request.c:75-134 | returns the given size plus one; a non-empty chain afterwards is the old chain with the record spliced in at the FIFO or SFF position; the caller's struct and an empty list are unchanged |
| `RequestQueue.SplicedKeepsOrder` | template/request.c:75-134 | after a splice the chain is one longer, holds the record at the splice position and removing it gives back the old chain in its old order (same multiset plus the record) |
| `RequestQueue.FifoAppends` | template/request.c:116-128 | FIFO: the record becomes the last node and the nodes before it are the old chain |
| `RequestQueue.SffPlacement` | template/request.c:89-113 | SFF: the head stays first, the record lands right after the first node at least as large, every earlier node is smaller, and with no large enough node before the last the record is appended |
| `RequestQueue.SffIsNotSorted` | template/request.c:89-113 | SFF places 10 after a head of 50 and 20 after 30 in `[10, 30]`: the list is not kept sorted |
| `RequestQueue.SffArrivalExample` | template/request.c:89-113 | a chain whose head has size 50, after records of size 10 and then 30 are enqueued, reads 50, 30, 10 |
| `RequestQueue.SffEqualSizes` | template/request.c:89-113 | among equal sizes the new record goes right after the first of them, not first |
| `RequestQueue.EnqueueOnNewQueue` | template/request.c:75-134 | enqueuing twice onto a new list returns 1 both times and the list keeps no node and size 0 |
| `RequestParse.ParseUri` | template/request.c:192-223 | static (1) exactly when "cgi" does not occur; static: no CGI arguments, file name "." + URI, plus "index.html" when the URI ends in '/'; dynamic (0): split at the first '?' into file name and CGI arguments, or the whole URI with no arguments |
| `RequestParse.ParseUriRecoversUri` | template/request.c:196-222 | the file name starts with "."; the URI is recovered from file name and CGI arguments (joined by '?' when the URI had one); a dynamic file name has no '?' |
| `RequestParse.CgiAnywhereIsDynamic` | template/request.c:196 | a URI with "cgi" anywhere in it is dynamic |
| `RequestParse.StaticKeepsQuery` | template/request.c:196-205 | the static URI "/a?b" names the file "./a?b" with no CGI arguments |
| `RequestParse.FileType` | template/request.c:228-238 | the type is one of four strings; text/html exactly when ".html" occurs, else image/gif when ".gif" occurs, else image/jpeg when ".jpg" occurs, else text/plain |
| `RequestParse.HtmlAnywhereWins` | template/request.c:230-231 | ".html" anywhere in the name gives text/html whatever the name ends with |
| `RequestParse.GifAnywhereWithoutHtml` | template/request.c:232-233 | a name without ".html" containing ".gif" anywhere gives image/gif |
| `RequestParse.JpegIsPlainText` | template/request.c:230-237 | "./a.jpeg" gets text/plain |
| `RequestHandle.Decide` | template/request.c:282-327 | a method other than GET in any case gives 501 first; then a failed stat gives 404 (dynamic URIs too); then a static file that is not regular or not user-readable gives 403; then a dynamic URI gives 501; admitted exactly for a static, regular, readable file, with its file name and size |
| `RequestHandle.FirstFailing` | template/request.c:295-326 | running checks in order: the first failing check gives the response; all passing gives admission |
| `RequestHandle.DecideChecksInOrder` | template/request.c:295-326 | the handler's decision equals running its four checks (method, stat, readable static file, static) in that order |
| `RequestHandle.CgiNeverAdmitted` | template/request.c:303-326 | a URI containing "cgi" is never admitted |
| `RequestHandle.NonGetMethodRejected` | template/request.c:295-299 | a method that is not G/g E/e T/t gets 501 with the method as the cause, whatever the URI and the file |

## Left out

- `request_error`: writing the HTTP/1.0 status line, headers and HTML body to the socket and closing it is I/O; the model keeps only its arguments (cause, status number, short and long message) in `Rejected`.
- `request_read_headers`: a loop reading socket lines until an empty one; I/O with no effect on the decision.
- `request_serve_static`: opening, memory-mapping and writing the file to the socket; I/O.
- `thread_request_serve_static`: an empty function in the code; no worker threads, locking, blocking or back-pressure exist in the code.
- `new_node`: it returns no value (undefined behaviour in C) and nothing calls it.
- Reading the request line (`readline_or_die`, `sscanf`), the `printf` log line and the `stat` call in `request_handle`: the method, the URI and the result of `stat` are inputs of `Decide`. A request line without a URI leaves `uri` unset in C; the model requires a non-empty URI once the method is GET.
- Memory management (`malloc`, `strdup`, the lost node on an empty list is simply dropped) and overflow of the fixed 8192-byte buffers by `sprintf`, `strcpy` and `strcat`: outputs are assumed to fit.
- The in-place truncation of `uri` at its '?': only its effect on the file name is modelled.
- `RequestQueue.Enqueue`: integers are unbounded, so `size++` at the largest `int` (undefined in C) and the 32-bit width of `filesize` are not modelled.
- `RequestQueue.ListNodes`: the node chain is modelled as the sequence of its records in list order, not as separate node objects, so aliasing between individual nodes and cycles are not modelled; the chain is shared between copies of the list struct as in the code.
- C strings are modelled as character sequences without an embedded NUL; `tolower` is the C-locale one (only A-Z change).
