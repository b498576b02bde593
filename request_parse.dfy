/**
 * The two pure helpers of the request handler: splitting a request URI into
 * a file name and CGI arguments (`request_parse_uri`), and choosing the
 * Content-Type of a file from its name (`request_get_filetype`).
 */
module RequestParse {
  import opened CStrings

  /** What `request_parse_uri` returns (1 static, 0 dynamic) and what it writes to its two out-buffers. */
  datatype ParsedUri = ParsedUri(isStatic: int, filename: string, cgiargs: string)

  /**
   * `request_parse_uri(uri, filename, cgiargs)`. A URI with "cgi" anywhere in
   * it is dynamic: its file name is "." and the URI up to the first '?', and
   * its CGI arguments are what follows that '?'. Any other URI is static: no
   * CGI arguments, file name "." and the whole URI (a query string included),
   * with "index.html" added when the URI ends in '/'.
   */
  function ParseUri(uri: string): (p: ParsedUri)
    requires uri != []
    ensures p.isStatic == (if Contains(uri, "cgi") then 0 else 1)
    ensures p.isStatic == 1 ==>
      && p.cgiargs == ""
      && p.filename == "." + uri + (if uri[|uri| - 1] == '/' then "index.html" else "")
    ensures p.isStatic == 0 && '?' !in uri ==> p.cgiargs == "" && p.filename == "." + uri
    ensures p.isStatic == 0 && '?' in uri ==>
      var q := |p.filename| - 1;
      && 0 <= q < |uri| && uri[q] == '?' && '?' !in uri[..q]
      && p.filename == "." + uri[..q]
      && p.cgiargs == uri[q + 1..]
  {
    if !Contains(uri, "cgi") then
      var filename := "." + uri;
      ParsedUri(1, if uri[|uri| - 1] == '/' then filename + "index.html" else filename, "")
    else
      match IndexOf(uri, '?')
      case Some(q) => ParsedUri(0, "." + uri[..q], uri[q + 1..])
      case None => ParsedUri(0, "." + uri, "")
  }

  /**
   * Nothing of the URI is lost: a static file name starts with "." and the
   * URI; for a dynamic URI, the file name without its "." and the CGI
   * arguments, joined by the '?' that was cut out, give the URI back, and
   * the file name holds no '?'.
   */
  lemma ParseUriRecoversUri(uri: string)
    requires uri != []
    ensures var p := ParseUri(uri);
      && p.filename != [] && p.filename[0] == '.'
      && (p.isStatic == 1 ==> |p.filename| > |uri| && p.filename[1..|uri| + 1] == uri)
      && (p.isStatic == 0 ==> '?' !in p.filename)
      && (p.isStatic == 0 && '?' in uri ==> uri == p.filename[1..] + "?" + p.cgiargs)
      && (p.isStatic == 0 && '?' !in uri ==> uri == p.filename[1..])
  {
  }

  /** "cgi" written into a URI anywhere, even inside a file name, makes it dynamic. */
  lemma CgiAnywhereIsDynamic(before: string, after: string)
    ensures ParseUri(before + "cgi" + after).isStatic == 0
  {
    assert OccursAt(before + "cgi" + after, "cgi", |before|);
  }

  /** A static URI keeps its query string in the file name: "/a?b" names the file "./a?b". */
  lemma StaticKeepsQuery()
    ensures ParseUri("/a?b") == ParsedUri(1, "./a?b", "")
  {
  }

  /** A name lacking one of the characters of `pat` does not contain `pat`. */
  lemma MissingCharNotContained(s: string, pat: string, c: char)
    requires c in pat && c !in s
    ensures !Contains(s, pat)
  {
  }

  /** The four Content-Type values `request_get_filetype` can produce. */
  const FileTypes: seq<string> := ["text/html", "image/gif", "image/jpeg", "text/plain"]

  /**
   * `request_get_filetype(filename, filetype)`: the first of ".html", ".gif",
   * ".jpg" that occurs anywhere in the name picks the type; a name with none
   * of them is plain text.
   */
  function FileType(filename: string): (t: string)
    ensures t in FileTypes
    ensures t == "text/html" <==> Contains(filename, ".html")
    ensures t == "image/gif" <==> !Contains(filename, ".html") && Contains(filename, ".gif")
    ensures t == "image/jpeg" <==>
      !Contains(filename, ".html") && !Contains(filename, ".gif") && Contains(filename, ".jpg")
    ensures t == "text/plain" <==>
      !Contains(filename, ".html") && !Contains(filename, ".gif") && !Contains(filename, ".jpg")
  {
    if Contains(filename, ".html") then "text/html"
    else if Contains(filename, ".gif") then "image/gif"
    else if Contains(filename, ".jpg") then "image/jpeg"
    else "text/plain"
  }

  /**
   * The type is found by containment, not by the suffix: ".html" anywhere in
   * the name wins over whatever the name ends with.
   */
  lemma HtmlAnywhereWins(before: string, after: string)
    ensures FileType(before + ".html" + after) == "text/html"
  {
    assert OccursAt(before + ".html" + after, ".html", |before|);
  }

  /** A name without ".html" that contains ".gif" is a GIF image, whatever follows it. */
  lemma GifAnywhereWithoutHtml(before: string, after: string)
    requires !Contains(before + ".gif" + after, ".html")
    ensures FileType(before + ".gif" + after) == "image/gif"
  {
    assert OccursAt(before + ".gif" + after, ".gif", |before|);
  }

  /** A name ending in ".jpeg" contains none of the three markers, so it is served as plain text. */
  lemma JpegIsPlainText()
    ensures FileType("./a.jpeg") == "text/plain"
  {
    var name := "./a.jpeg";
    MissingCharNotContained(name, ".html", 'h');
    MissingCharNotContained(name, ".gif", 'i');
    forall i | 0 <= i && i + 4 <= |name|
      ensures !OccursAt(name, ".jpg", i)
    {
      assert name[i..i + 4][0] == name[i] && name[i..i + 4][3] == name[i + 3];
    }
    assert !Contains(name, ".jpg");
  }
}
