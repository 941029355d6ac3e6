/**
 * Logging in to the SMS panel (`login_to_panel`): the login URL is derived
 * from the stats-page URL, the form is posted, and success is guessed from
 * marker strings in the reply.  The HTTP exchange itself is an input.
 */
module Login {
  import opened Wrappers
  import opened Text

  /** The configuration the program reads from its environment at start-up. */
  datatype Config = Config(panelUrl: string, username: string, password: string, checkInterval: int)

  const DefaultPanelUrl: string := "http://54.37.83.141/ints/agent/SMSCDRStats"
  const StatsSegment: string := "SMSCDRStats"
  const LoginSegment: string := "login"
  const DashboardMarker: string := "Dashboard"

  /** The configuration with every optional setting at its default. */
  function DefaultConfig(username: string, password: string): Config {
    Config(DefaultPanelUrl, username, password, 30)
  }

  /** An authenticated HTTP session; the handle stands for its cookie jar. */
  datatype Session = Session(handle: nat)

  /** The form POST that logs in. */
  datatype LoginRequest = LoginRequest(url: string, form: seq<(string, string)>)

  /** What the POST produced: a reply body, or an exception raised by the transport. */
  datatype PostReply = Replied(text: string) | PostFailed

  /**
   * The login URL: the panel URL with every "SMSCDRStats" replaced by
   * "login".  No "SMSCDRStats" survives, and a URL without it is kept.
   */
  function LoginUrl(panelUrl: string): (u: string)
    ensures !Contains(u, StatsSegment)
    ensures !Contains(panelUrl, StatsSegment) ==> u == panelUrl
  {
    var u := ReplaceAll(panelUrl, StatsSegment, LoginSegment);
    ReplaceAllRemovesPattern(panelUrl, StatsSegment, LoginSegment);
    if Contains(panelUrl, StatsSegment) then u
    else (ReplaceAllAbsent(panelUrl, StatsSegment, LoginSegment); u)
  }

  /** A stats URL whose directory part has no 'S' logs in at the same directory. */
  lemma LoginUrlOfStatsPage(dir: string)
    requires 'S' !in dir
    ensures LoginUrl(dir + StatsSegment) == dir + LoginSegment
  {
    ReplaceAllSkipsForeign(dir, StatsSegment, StatsSegment, LoginSegment);
    assert StatsSegment[|StatsSegment|..] == [];
  }

  /**
   * The first "SMSCDRStats" of the panel URL becomes "login", the text
   * before it is kept, and the rest of the URL is treated the same way.
   */
  lemma LoginUrlFirstOccurrence(a: string, b: string)
    requires forall i :: 0 <= i < |a| ==> !OccursAt(a + StatsSegment + b, StatsSegment, i)
    ensures LoginUrl(a + StatsSegment + b) == a + LoginSegment + LoginUrl(b)
  {
    ReplaceAllFirst(a, b, StatsSegment, LoginSegment);
  }

  /** The default panel URL is a stats page, and it logs in at `.../ints/agent/login`. */
  lemma DefaultLoginUrl(dir: string)
    requires dir == "http://54.37.83.141/ints/agent/"
    ensures DefaultPanelUrl == dir + StatsSegment
    ensures LoginUrl(DefaultPanelUrl) == dir + LoginSegment
  {
    LoginUrlOfStatsPage(dir);
  }

  /** With the settings left at their defaults, the program polls every 30 seconds and logs in at `.../ints/agent/login`. */
  lemma DefaultConfigLogin(username: string, password: string, dir: string)
    requires dir == "http://54.37.83.141/ints/agent/"
    ensures DefaultConfig(username, password).checkInterval == 30
    ensures LoginRequestFor(DefaultConfig(username, password)).url == dir + LoginSegment
  {
    DefaultLoginUrl(dir);
  }

  /** The request `login_to_panel` posts: URL and the three form fields. */
  function LoginRequestFor(cfg: Config): (req: LoginRequest)
    ensures req.url == LoginUrl(cfg.panelUrl) && !Contains(req.url, StatsSegment)
    ensures |req.form| == 3
    ensures req.form[0] == ("username", cfg.username) && req.form[1] == ("password", cfg.password)
    ensures req.form[2] == ("login", "Login")
  {
    LoginRequest(LoginUrl(cfg.panelUrl),
                 [("username", cfg.username), ("password", cfg.password), ("login", "Login")])
  }

  /** The success heuristic: the reply mentions the stats page or a dashboard. */
  predicate LoginSucceeded(body: string) {
    Contains(body, StatsSegment) || Contains(body, DashboardMarker)
  }

  /**
   * The outcome of `login_to_panel`: the new session when a reply came
   * back carrying a marker, and `None` for a markerless reply or an exception.
   */
  function LoginToPanel(newSession: Session, reply: PostReply): (r: Option<Session>)
    ensures r.Some? <==> (reply.Replied? &&
      ((exists i :: OccursAt(reply.text, StatsSegment, i)) ||
       (exists i :: OccursAt(reply.text, DashboardMarker, i))))
    ensures r.Some? ==> r.value == newSession
  {
    if reply.Replied? then
      ContainsIff(reply.text, StatsSegment);
      ContainsIff(reply.text, DashboardMarker);
      if LoginSucceeded(reply.text) then Some(newSession) else None
    else None
  }

  /** A marker anywhere in a page is enough, whatever surrounds it. */
  lemma LoginMarkerAnywhere(before: string, body: string, after: string)
    requires LoginSucceeded(body)
    ensures LoginSucceeded(before + body + after)
  {
    if Contains(body, StatsSegment) {
      ContainsInContext(before, body, after, StatsSegment);
    } else {
      ContainsInContext(before, body, after, DashboardMarker);
    }
  }

  /** A reply without the letters 'S' and 'D' cannot hold either marker. */
  lemma MarkerlessReplyFails(body: string)
    requires 'S' !in body && 'D' !in body
    ensures !LoginSucceeded(body)
  {
    MissingFirstChar(body, StatsSegment);
    MissingFirstChar(body, DashboardMarker);
  }

  /** A typical rejection page carries neither marker. */
  lemma RejectionPageFails(body: string)
    requires body == "<h1>Login</h1> Invalid username or password"
    ensures !LoginSucceeded(body)
  {
    assert 'S' !in body;
    assert 'D' !in body;
    MarkerlessReplyFails(body);
  }

  /** A page titled "Dashboard" counts as logged in. */
  lemma DashboardPageSucceeds(body: string)
    requires body == "<title>Dashboard</title>"
    ensures LoginSucceeded(body)
  {
    assert body[7..16] == DashboardMarker;
    assert OccursAt(body, DashboardMarker, 7);
    ContainsIff(body, DashboardMarker);
  }
}
