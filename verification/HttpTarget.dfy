/** The four forms of a request target (section 5.3 of RFC 7230), all accepted by the parser. */
module HttpTarget {
  import opened Options
  import opened HttpGrammar
  import opened HttpStep
  import opened UrlGrammar
  import opened Uris
  import opened HttpStartLine

  /** A path from the root, and perhaps a query. */
  lemma OriginForm(path: Text, query: Text)
    requires path != [] && path[0] == '/' as int && All(path, IsUrlChar) && All(query, QueryTextChar)
    ensures TargetOk(false, path + if query == [] then [] else ['?' as int] + query)
  {
    hide IsUrlChar, Walk, UrlGrammar.Step, UrlEndState;
    var w := Start(false);
    FirstStep('/' as int);
    WalkCons(w, path[0], path[1..]);
    assert path == [path[0]] + path[1..];
    PathRun(w.(state := ReqPath, path := [path[0]]), path[1..]);
    var w1 := w.(state := ReqPath, path := [path[0]] + path[1..]);
    WalkQuery(w1, query);
    WalkAppend(w, path, if query == [] then [] else ['?' as int] + query);
    EndStates();
  }

  /** A whole URI, as a proxy gets it. */
  lemma AbsoluteForm(u: Uri)
    requires Shape(u)
    ensures TargetOk(false, u.ToString())
  {
    hide Walk, Shape, Uri.ToString, UrlEndState;
    WalkPrinted(u);
    EndStates();
    NotEmpty(u);
  }

  lemma NotEmpty(u: Uri)
    requires Shape(u)
    ensures u.ToString() != []
  {
    hide Uri.Authority, Uri.GetPath;
  }

  /** Host and port, for CONNECT. */
  lemma AuthorityForm(host: Text)
    requires host != [] && All(host, IsUserinfoChar)
    ensures TargetOk(true, host)
  {
    hide IsUserinfoChar, Walk, UrlEndState;
    ServerRun(Start(true), host);
    EndStates();
  }

  /** The server as a whole, for OPTIONS. */
  lemma AsteriskForm()
    ensures TargetOk(false, ['*' as int])
  {
    hide Walk, UrlEndState;
    FirstStep('*' as int);
    WalkOne(Start(false), '*' as int);
    EndStates();
  }

  lemma FirstStep(ch: byte)
    requires ch == '/' as int || ch == '*' as int
    ensures UrlGrammar.Step(Start(false), ch) == Some(Start(false).(state := ReqPath, path := [ch]))
  {
    assert [] + [ch] == [ch];
  }

  lemma EndStates()
    ensures UrlEndState(ReqPath) && UrlEndState(ReqQueryString) && UrlEndState(ReqFragment) && UrlEndState(ReqServer)
  {
  }
}
