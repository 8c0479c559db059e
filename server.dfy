/**
 * The local web server of the dynamic html report (`repo_html_server.py`):
 * how a request is routed, when a shutdown is accepted, and how a blame
 * table asked for by its id is built.
 *
 * The sockets, threads, queues and the browser are left out; a request is
 * its path and the value of its `id` argument (`None` when it has none),
 * and the blame rows of a file at a commit come from `blameRows`.
 */
module HtmlServer {
  import opened Errors
  import opened Strs
  import Utils
  import Headers
  import HtmlIds
  import HtmlRender

  /** What a request asks for, as `server_app` decides it from the path alone. */
  datatype Route =
    | Page                        // "/"
    | Shutdown                    // a path starting with "/shutdown"
    | LoadTable(tableId: string)  // a path starting with "/load-table/", by its last segment
    | Favicon                     // "/favicon.ico"
    | NotFound

  /** The branches of `server_app`, tried in order. */
  function RouteOf(path: string): (r: Route)
    ensures r == Page <==> path == "/"
    ensures r == Shutdown <==> path != "/" && Utils.IsPrefix("/shutdown", path)
    ensures r.LoadTable? <==> path != "/" && !Utils.IsPrefix("/shutdown", path) && Utils.IsPrefix("/load-table/", path)
    ensures r.LoadTable? ==> '/' !in r.tableId
    ensures r == Favicon <==> path == "/favicon.ico"
  {
    if path == "/" then Page
    else if Utils.IsPrefix("/shutdown", path) then
      assert path[1] == 's';
      Shutdown
    else if Utils.IsPrefix("/load-table/", path) then
      LoadTable(Utils.LastSegment(path))
    else if path == "/favicon.ico" then Favicon
    else NotFound
  }

  /** A table id holds no "/". */
  lemma TableIdHasNoSlash(fileNr: nat, shaNr: nat)
    ensures '/' !in HtmlIds.TableId(fileNr, shaNr)
  {
    var d1, d2 := NatToString(fileNr), NatToString(shaNr);
    NatToStringRoundTrip(fileNr);
    NatToStringRoundTrip(shaNr);
    assert '/' !in d1 by {
      forall i | 0 <= i < |d1| ensures d1[i] != '/' { assert IsDigit(d1[i]); }
    }
    assert '/' !in d2 by {
      forall i | 0 <= i < |d2| ensures d2[i] != '/' { assert IsDigit(d2[i]); }
    }
    assert HtmlIds.TableId(fileNr, shaNr) == "file-" + d1 + "-sha-" + d2;
  }

  /** The path the browser asks a table by is routed to that table's id. */
  lemma LoadTableRoute(fileNr: nat, shaNr: nat)
    ensures RouteOf("/load-table/" + HtmlIds.TableId(fileNr, shaNr)) == LoadTable(HtmlIds.TableId(fileNr, shaNr))
  {
    var id := HtmlIds.TableId(fileNr, shaNr);
    var path := "/load-table/" + id;
    assert path[..9] == "/load-tab";
    assert path[..12] == "/load-table/";
    TableIdHasNoSlash(fileNr, shaNr);
    Utils.LastSegmentOf(id, "/load-table/");
  }

  /** The shutdown request the report sends is routed as a shutdown, and so is one with more after "/shutdown". */
  lemma ShutdownRoute(rest: string)
    ensures RouteOf("/shutdown") == Shutdown
    ensures RouteOf("/shutdown" + rest) == Shutdown
  {
    assert ("/shutdown" + rest)[..9] == "/shutdown";
  }

  /** A response: its status and either a text or a blame table. */
  datatype Content = Text(text: string) | TableHtml(table: HtmlRender.Table)
  datatype Response = Response(status: nat, content: Content)

  /** The blame rows of a file at a commit, with their comment flags. */
  type BlameRows = (string, string) -> (seq<HtmlRender.Row>, seq<bool>)

  /**
   * `generate_fstr_commit_table`: the file by its number (an `IndexError`
   * past the end), the commit by its number (a `KeyError` for an unknown
   * one), and the table of their blame rows with the id the browser asked
   * for. Rows wider than the blame header are an `IndexError`.
   */
  function FstrCommitTable(fstrs: seq<string>, nr2sha: map<nat, string>, exclusions: HtmlRender.Exclusions,
                           blameRows: BlameRows, fileNr: nat, shaNr: nat): (r: Result<HtmlRender.Table>)
    ensures fileNr >= |fstrs| ==> r == Raise(IndexError)
    ensures fileNr < |fstrs| && shaNr !in nr2sha ==> r == Raise(KeyError)
    ensures r.Ok? ==>
      && fileNr < |fstrs| && shaNr in nr2sha
      && r.value.id == Some(HtmlIds.TableId(fileNr, shaNr))
      && var (rows, isComments) := blameRows(fstrs[fileNr], nr2sha[shaNr]);
         |r.value.body| == (if |rows| < |isComments| then |rows| else |isComments|)
  {
    if fileNr >= |fstrs| then Raise(IndexError)
    else if shaNr !in nr2sha then Raise(KeyError)
    else
      var (rows, isComments) := blameRows(fstrs[fileNr], nr2sha[shaNr]);
      if !HtmlRender.Fits(rows, Headers.HeaderBlames()) then Raise(IndexError)
      else Ok(HtmlRender.BlameTableOf(rows, isComments, true, fileNr, shaNr, exclusions))
  }

  /**
   * `handle_load_table`: the numbers of a well-formed table id give the
   * blame table of that file at that commit when dynamic blame history is
   * on; otherwise the answer is empty.
   */
  function HandleLoadTable(tableId: string, dynamic: bool, fstrs: seq<string>, nr2sha: map<nat, string>,
                           exclusions: HtmlRender.Exclusions, blameRows: BlameRows): (r: Result<Content>)
    ensures HtmlIds.ParseTableId(tableId).None? || !dynamic ==> r == Ok(Text(""))
    ensures HtmlIds.ParseTableId(tableId).Some? && dynamic ==>
      var t := FstrCommitTable(fstrs, nr2sha, exclusions, blameRows,
                               HtmlIds.ParseTableId(tableId).value.0, HtmlIds.ParseTableId(tableId).value.1);
      (r.Ok? <==> t.Ok?) && (r.Ok? ==> r.value == TableHtml(t.value)) && (r.Raise? ==> r.error == t.error)
  {
    match HtmlIds.ParseTableId(tableId)
    case None => Ok(Text(""))
    case Some((fileNr, shaNr)) =>
      if !dynamic then Ok(Text(""))
      else
        match FstrCommitTable(fstrs, nr2sha, exclusions, blameRows, fileNr, shaNr)
        case Ok(t) => Ok(TableHtml(t))
        case Raise(e) => Raise(e)
  }

  /** A table asked for by the id the report gave it is the table of the numbers the id was built from. */
  lemma LoadTableById(fileNr: nat, shaNr: nat, fstrs: seq<string>, nr2sha: map<nat, string>,
                      exclusions: HtmlRender.Exclusions, blameRows: BlameRows)
    requires fileNr < |fstrs| && shaNr in nr2sha
    requires HtmlRender.Fits(blameRows(fstrs[fileNr], nr2sha[shaNr]).0, Headers.HeaderBlames())
    ensures var r := HandleLoadTable(HtmlIds.TableId(fileNr, shaNr), true, fstrs, nr2sha, exclusions, blameRows);
      r.Ok? && r.value.TableHtml? && r.value.table.id == Some(HtmlIds.TableId(fileNr, shaNr))
  {
    HtmlIds.TableIdRoundTrip(fileNr, shaNr);
  }

  /**
   * `server_app` for one request: the response, and whether it accepts a
   * shutdown. Only the page, a shutdown and a table load look at anything
   * but the path, and the last two answer 403 to any id but the browser's.
   */
  function Serve(path: string, id: Option<string>, browserId: string, htmlDocCode: string, dynamic: bool,
                 fstrs: seq<string>, nr2sha: map<nat, string>, exclusions: HtmlRender.Exclusions,
                 blameRows: BlameRows): (r: (Result<Response>, bool))
    ensures r.1 <==> RouteOf(path) == Shutdown && id == Some(browserId)
    ensures RouteOf(path) == Page ==> r.0 == Ok(Response(200, Text(htmlDocCode)))
    ensures RouteOf(path).LoadTable? && id != Some(browserId) ==> r.0 == Ok(Response(403, Text("Invalid browser ID")))
    ensures RouteOf(path) == Shutdown && id != Some(browserId) ==> r.0 == Ok(Response(403, Text("Invalid shutdown ID")))
    ensures RouteOf(path) == Favicon || RouteOf(path) == NotFound ==> r.0.Ok? && r.0.value.status == 404
    ensures r.0.Raise? ==> RouteOf(path).LoadTable? && id == Some(browserId) && dynamic
  {
    match RouteOf(path)
    case Page => (Ok(Response(200, Text(htmlDocCode))), false)
    case Shutdown =>
      if id == Some(browserId) then (Ok(Response(200, Text(""))), true)
      else (Ok(Response(403, Text("Invalid shutdown ID"))), false)
    case LoadTable(tableId) =>
      if id == Some(browserId) then
        match HandleLoadTable(tableId, dynamic, fstrs, nr2sha, exclusions, blameRows)
        case Ok(c) => (Ok(Response(200, c)), false)
        case Raise(e) => (Raise(e), false)
      else (Ok(Response(403, Text("Invalid browser ID"))), false)
    case Favicon => (Ok(Response(404, Text(""))), false)
    case NotFound => (Ok(Response(404, Text("Not found"))), false)
  }

  /** The report's own shutdown request, `/shutdown?id=<browser id>`, is accepted; one without the id is not. */
  lemma OwnShutdownAccepted(browserId: string, htmlDocCode: string, dynamic: bool, fstrs: seq<string>,
                            nr2sha: map<nat, string>, exclusions: HtmlRender.Exclusions, blameRows: BlameRows)
    ensures Serve("/shutdown", Some(browserId), browserId, htmlDocCode, dynamic, fstrs, nr2sha, exclusions, blameRows)
         == (Ok(Response(200, Text(""))), true)
    ensures !Serve("/shutdown", None, browserId, htmlDocCode, dynamic, fstrs, nr2sha, exclusions, blameRows).1
  {
    ShutdownRoute("");
  }

  /** `str(uuid4())[-12:]`: the last twelve characters, or all of a shorter text. */
  function LastTwelve(s: string): (t: string)
    ensures |t| == if |s| < 12 then |s| else 12
    ensures t == s[|s| - |t|..]
  {
    if |s| < 12 then s else s[|s| - 12..]
  }

  class RepoServer {
    const name: string
    /** `fstrs`: the blamed files, numbered as in the table ids. */
    const fstrs: seq<string>
    /** `nr2sha`: the commit numbers of the report. */
    const nr2sha: map<nat, string>
    /** Whether dynamic blame history is selected. */
    const dynamic: bool
    const exclusions: HtmlRender.Exclusions
    var browserId: string
    var htmlDocCode: string
    /** `server_shutdown_request_event`. */
    var shutdownRequested: bool

    constructor (name: string, fstrs: seq<string>, nr2sha: map<nat, string>, dynamic: bool, exclusions: HtmlRender.Exclusions)
      ensures this.name == name && this.fstrs == fstrs && this.nr2sha == nr2sha
      ensures this.dynamic == dynamic && this.exclusions == exclusions
      ensures browserId == "" && htmlDocCode == "" && !shutdownRequested
    {
      this.name := name;
      this.fstrs := fstrs;
      this.nr2sha := nr2sha;
      this.dynamic := dynamic;
      this.exclusions := exclusions;
      browserId := "";
      htmlDocCode := "";
      shutdownRequested := false;
    }

    /**
     * The state part of `start_werkzeug_server_with_html`: the browser id
     * is the repository name, "-" and the end of a fresh uuid (`uuid`), and
     * the document is built for that id (`document`, see `HtmlRender.HtmlDocument`).
     */
    method Start(uuid: string, document: string -> string)
      modifies this
      ensures browserId == name + "-" + LastTwelve(uuid)
      ensures htmlDocCode == document(browserId)
      ensures shutdownRequested == old(shutdownRequested)
    {
      browserId := name + "-" + LastTwelve(uuid);
      htmlDocCode := document(browserId);
    }

    /**
     * `server_app`: the response to one request; a shutdown with the
     * browser's id sets the shutdown event, and nothing else changes.
     */
    method ServerApp(path: string, id: Option<string>, blameRows: BlameRows) returns (r: Result<Response>)
      modifies this
      ensures var (response, shutdown) := Serve(path, id, browserId, htmlDocCode, dynamic, fstrs, nr2sha, exclusions, blameRows);
        r == response && shutdownRequested == (old(shutdownRequested) || shutdown)
      ensures browserId == old(browserId) && htmlDocCode == old(htmlDocCode)
    {
      if path == "/" {
        r := Ok(Response(200, Text(htmlDocCode)));
      } else if Utils.IsPrefix("/shutdown", path) {
        if id == Some(browserId) {
          shutdownRequested := true;
          r := Ok(Response(200, Text("")));
        } else {
          r := Ok(Response(403, Text("Invalid shutdown ID")));
        }
      } else if Utils.IsPrefix("/load-table/", path) {
        var tableId := Utils.LastSegment(path);
        if id == Some(browserId) {
          var html := HandleLoadTableAt(tableId, blameRows);
          r := match html case Ok(c) => Ok(Response(200, c)) case Raise(e) => Raise(e);
        } else {
          r := Ok(Response(403, Text("Invalid browser ID")));
        }
      } else if path == "/favicon.ico" {
        r := Ok(Response(404, Text("")));
      } else {
        r := Ok(Response(404, Text("Not found")));
      }
    }

    /** `handle_load_table` on this server's files and commits. */
    method HandleLoadTableAt(tableId: string, blameRows: BlameRows) returns (r: Result<Content>)
      ensures r == HandleLoadTable(tableId, dynamic, fstrs, nr2sha, exclusions, blameRows)
    {
      var parsed := HtmlIds.ParseTableId(tableId);
      if parsed.None? || !dynamic {
        return Ok(Text(""));
      }
      var (fileNr, shaNr) := parsed.value;
      var table := GenerateFstrCommitTable(fileNr, shaNr, blameRows);
      r := match table case Ok(t) => Ok(TableHtml(t)) case Raise(e) => Raise(e);
    }

    /** `generate_fstr_commit_table` on this server's files and commits. */
    method GenerateFstrCommitTable(fileNr: nat, shaNr: nat, blameRows: BlameRows) returns (r: Result<HtmlRender.Table>)
      ensures r == FstrCommitTable(fstrs, nr2sha, exclusions, blameRows, fileNr, shaNr)
    {
      if fileNr >= |fstrs| {
        return Raise(IndexError);
      }
      var fstr := fstrs[fileNr];
      if shaNr !in nr2sha {
        return Raise(KeyError);
      }
      var sha := nr2sha[shaNr];
      var (rows, isComments) := blameRows(fstr, sha);
      if !HtmlRender.Fits(rows, Headers.HeaderBlames()) {
        return Raise(IndexError);
      }
      var table := HtmlRender.BlameTable(rows, isComments, true, fileNr, shaNr, exclusions);
      r := Ok(table);
    }
  }
}
