/**
 * The decision `request_handle` takes for one request, with its I/O taken
 * out: the request line's method and URI and the result of `stat` on the
 * file name are inputs, and the result says which error response is sent
 * (the arguments of `request_error`) or that the request reached the point
 * where it is to be added to the queue.
 */
module RequestHandle {
  import opened CStrings
  import opened RequestParse

  /** What `stat(filename, &sbuf)` reports: failure, or S_ISREG, S_IRUSR and the size. */
  datatype FileStat = StatFailed | StatOk(isRegular: bool, userReadable: bool, size: int)

  /**
   * The outcome of handling: an error response (cause, status number, short
   * and long message, as passed to `request_error`), or admission of a
   * regular, readable static file of the given name and size.
   */
  datatype Outcome =
    | Rejected(cause: string, errnum: string, shortmsg: string, longmsg: string)
    | Admitted(filename: string, filesize: int)

  /** `strcasecmp(verb, "GET") == 0`. */
  predicate IsGet(verb: string)
  {
    CaseEqual(verb, "GET")
  }

  /**
   * The branches of `request_handle`. The URI is parsed only once the method
   * is GET, so only then must it be non-empty.
   */
  function Decide(verb: string, uri: string, st: FileStat): (o: Outcome)
    requires IsGet(verb) ==> uri != []
    ensures !IsGet(verb) ==>
      o == Rejected(verb, "501", "Not Implemented", "server does not implement this method")
    ensures IsGet(verb) && st.StatFailed? ==>
      o == Rejected(ParseUri(uri).filename, "404", "Not found", "server could not find this file")
    ensures IsGet(verb) && st.StatOk? && ParseUri(uri).isStatic != 0
            && !(st.isRegular && st.userReadable) ==>
      o == Rejected(ParseUri(uri).filename, "403", "Forbidden", "server could not read this file")
    ensures IsGet(verb) && st.StatOk? && ParseUri(uri).isStatic == 0 ==>
      o == Rejected(ParseUri(uri).filename, "501", "Not Implemented",
                    "server does not serve dynamic content request")
    ensures o.Admitted? <==>
      IsGet(verb) && st.StatOk? && ParseUri(uri).isStatic != 0 && st.isRegular && st.userReadable
    ensures o.Admitted? ==> o.filename == ParseUri(uri).filename && o.filesize == st.size
  {
    if !IsGet(verb) then
      Rejected(verb, "501", "Not Implemented", "server does not implement this method")
    else
      var p := ParseUri(uri);
      match st
      case StatFailed =>
        Rejected(p.filename, "404", "Not found", "server could not find this file")
      case StatOk(isRegular, userReadable, size) =>
        if p.isStatic != 0 then
          if !isRegular || !userReadable then
            Rejected(p.filename, "403", "Forbidden", "server could not read this file")
          else
            Admitted(p.filename, size)
        else
          Rejected(p.filename, "501", "Not Implemented", "server does not serve dynamic content request")
  }

  /** A check of the handler: whether the request passes it, and the response when it does not. */
  datatype Guard = Guard(passes: bool, rejection: Outcome)

  /** Run the checks in order: the first one that fails decides; if none fails, `admitted`. */
  function FirstFailing(guards: seq<Guard>, admitted: Outcome): (o: Outcome)
    ensures (forall i :: 0 <= i < |guards| ==> guards[i].passes) ==> o == admitted
    ensures forall i ::
      (0 <= i < |guards| && !guards[i].passes && forall j :: 0 <= j < i ==> guards[j].passes)
      ==> o == guards[i].rejection
  {
    if guards == [] then admitted
    else if !guards[0].passes then guards[0].rejection
    else
      var o := FirstFailing(guards[1..], admitted);
      assert forall i :: 1 <= i < |guards| ==> guards[1..][i - 1] == guards[i];
      o
  }

  /** The checks of `request_handle` in the order the code makes them. */
  function HandleGuards(verb: string, uri: string, st: FileStat): seq<Guard>
    requires uri != []
  {
    var p := ParseUri(uri);
    [ Guard(IsGet(verb),
            Rejected(verb, "501", "Not Implemented", "server does not implement this method")),
      Guard(st.StatOk?,
            Rejected(p.filename, "404", "Not found", "server could not find this file")),
      Guard(p.isStatic == 0 || (st.StatOk? && st.isRegular && st.userReadable),
            Rejected(p.filename, "403", "Forbidden", "server could not read this file")),
      Guard(p.isStatic != 0,
            Rejected(p.filename, "501", "Not Implemented", "server does not serve dynamic content request")) ]
  }

  /**
   * The handler is exactly "verb, then stat, then readable static file,
   * then static at all": the first failing check picks the response, and a
   * request passing all four is admitted.
   */
  lemma DecideChecksInOrder(verb: string, uri: string, st: FileStat)
    requires uri != []
    ensures Decide(verb, uri, st) ==
      FirstFailing(HandleGuards(verb, uri, st),
                   Admitted(ParseUri(uri).filename, if st.StatOk? then st.size else 0))
  {
    var g := HandleGuards(verb, uri, st);
    var admitted := Admitted(ParseUri(uri).filename, if st.StatOk? then st.size else 0);
    if !g[0].passes {
    } else if !g[1].passes {
      assert forall j :: 0 <= j < 1 ==> g[j].passes;
    } else if !g[2].passes {
      assert forall j :: 0 <= j < 2 ==> g[j].passes;
    } else if !g[3].passes {
      assert forall j :: 0 <= j < 3 ==> g[j].passes;
    } else {
      assert forall i :: 0 <= i < |g| ==> g[i].passes;
    }
  }

  /** A URI with "cgi" in it is never admitted, whatever the method and the file. */
  lemma CgiNeverAdmitted(verb: string, before: string, after: string, st: FileStat)
    ensures !Decide(verb, before + "cgi" + after, st).Admitted?
  {
    CgiAnywhereIsDynamic(before, after);
  }

  /**
   * Only "GET" in some letter case passes the method check: any other method
   * is answered with 501 before the URI or the file is looked at.
   */
  lemma NonGetMethodRejected(verb: string, uri: string, st: FileStat)
    requires !(|verb| == 3 && verb[0] in "Gg" && verb[1] in "Ee" && verb[2] in "Tt")
    ensures Decide(verb, uri, st) ==
      Rejected(verb, "501", "Not Implemented", "server does not implement this method")
  {
  }
}
