/**
 * The polling loop (`monitor_otp_messages`).  Its state is the session and
 * `last_messages`, the list the previous cycle scraped.  A cycle scrapes,
 * notifies every record not in `last_messages`, and then remembers what it
 * scraped.  An exception escaping the cycle body sends the loop through a
 * fresh login, which replaces the session and leaves `last_messages` as the
 * body left it.  Sleeping is not modelled; its place in the cycle is kept.
 */
module Monitor {
  import opened Wrappers
  import opened Text
  import opened Login
  import opened Scrape
  import opened Dedup
  import opened Notify

  /** Where, if anywhere, an exception escaped the body of one cycle. */
  datatype Fault =
    | NoFault
      /** raised after `sent` notifications, before `last_messages = current_messages` */
    | FaultBeforeUpdate(sent: nat)
      /** raised after that assignment, while sleeping */
    | FaultAfterUpdate

  /**
   * What the outside world contributes to one cycle: the stats page, where
   * an exception struck, and the re-login exchange used if one did.
   */
  datatype CycleInput = CycleInput(fetch: Fetch, fault: Fault, newSession: Session, relogin: PostReply)

  /** The loop's variables between two cycles. */
  datatype PollState = PollState(session: Option<Session>, last: seq<Record>)

  /** What `last_messages` holds is always a list of scraped, hence well-formed, records. */
  predicate WellFormedState(st: PollState) {
    forall r :: r in st.last ==> WellFormed(r)
  }

  function Min(a: int, b: int): int {
    if a < b then a else b
  }

  /** `current_messages` of the cycle. */
  function Scraped(st: PollState, inp: CycleInput): seq<Record> {
    ScrapeResult(st.session, inp.fetch)
  }

  /** The records the cycle hands to `send_to_telegram`, in order. */
  function Notified(st: PollState, inp: CycleInput): seq<Record> {
    var unseen := NewMessages(Scraped(st, inp), st.last);
    match inp.fault
    case FaultBeforeUpdate(k) => unseen[..Min(k, |unseen|)]
    case _ => unseen
  }

  /** The loop's variables after the cycle, the `except` branch included. */
  function Next(st: PollState, inp: CycleInput): PollState {
    match inp.fault
    case NoFault => PollState(st.session, Scraped(st, inp))
    case FaultBeforeUpdate(_) => PollState(LoginToPanel(inp.newSession, inp.relogin), st.last)
    case FaultAfterUpdate => PollState(LoginToPanel(inp.newSession, inp.relogin), Scraped(st, inp))
  }

  /** `f` applied to each element of `xs`, in order. */
  function MapSeq<A, B>(xs: seq<A>, f: A -> B): (ys: seq<B>)
    ensures |ys| == |xs|
  {
    if xs == [] then [] else MapSeq(xs[..|xs| - 1], f) + [f(xs[|xs| - 1])]
  }

  lemma {:induction false} MapSeqPointwise<A, B>(xs: seq<A>, f: A -> B)
    ensures forall k :: 0 <= k < |xs| ==> MapSeq(xs, f)[k] == f(xs[k])
    decreases |xs|
  {
    if xs != [] {
      var init := xs[..|xs| - 1];
      MapSeqPointwise(init, f);
      assert forall k :: 0 <= k < |init| ==> init[k] == xs[k];
    }
  }

  /** Mapping over one more element adds its image at the end. */
  lemma MapSeqSnoc<A, B>(xs: seq<A>, x: A, f: A -> B)
    ensures MapSeq(xs + [x], f) == MapSeq(xs, f) + [f(x)]
  {
    assert (xs + [x])[..|xs|] == xs;
  }

  lemma AppendSnoc<T>(a: seq<T>, b: seq<T>, x: T)
    ensures (a + b) + [x] == a + (b + [x])
  {
  }

  lemma TakeSnoc<T>(s: seq<T>, i: nat)
    requires i < |s|
    ensures s[..i + 1] == s[..i] + [s[i]]
  {
  }

  /** The notification texts for a list of records, one per record. */
  function Notifications(records: seq<Record>): (texts: seq<string>)
    ensures |texts| == |records|
  {
    MapSeq(records, FormatMessage)
  }

  /** Text `k` is the formatting of record `k`: one notification per record, in order. */
  lemma NotificationsInOrder(records: seq<Record>)
    ensures forall k :: 0 <= k < |records| ==> Notifications(records)[k] == FormatMessage(records[k])
  {
    MapSeqPointwise(records, FormatMessage);
  }

  /** One more record adds its notification at the end. */
  lemma NotificationsSnoc(records: seq<Record>, r: Record)
    ensures Notifications(records + [r]) == Notifications(records) + [FormatMessage(r)]
  {
    MapSeqSnoc(records, r, FormatMessage);
  }

  /** Only new OTP records are notified, each as often as the scrape lists it, in scrape order. */
  lemma NotifiedAreNew(st: PollState, inp: CycleInput)
    ensures Notified(st, inp) <= NewMessages(Scraped(st, inp), st.last)
    ensures inp.fault.FaultBeforeUpdate? || Notified(st, inp) == NewMessages(Scraped(st, inp), st.last)
    ensures forall r :: r in Notified(st, inp) ==> r in Scraped(st, inp) && r !in st.last && WellFormed(r)
  {
    var unseen := NewMessages(Scraped(st, inp), st.last);
    ScrapeResultWellFormed(st.session, inp.fetch);
    forall r | r in Notified(st, inp) ensures r in unseen {
      if inp.fault.FaultBeforeUpdate? {
        var k :| 0 <= k < |Notified(st, inp)| && Notified(st, inp)[k] == r;
        assert unseen[k] == r;
      }
    }
  }

  /** Every cycle keeps `last_messages` a list of well-formed records. */
  lemma NextWellFormed(st: PollState, inp: CycleInput)
    requires WellFormedState(st)
    ensures WellFormedState(Next(st, inp))
  {
    ScrapeResultWellFormed(st.session, inp.fetch);
  }

  /** A cycle that completes remembers exactly what it scraped and keeps the session. */
  lemma CompletedCycleRemembersScrape(st: PollState, inp: CycleInput)
    requires inp.fault.NoFault?
    ensures Next(st, inp) == PollState(st.session, ScrapeResult(st.session, inp.fetch))
  {
  }

  /** An exception before the update keeps `last_messages` and swaps in the re-login's session. */
  lemma FaultKeepsMemory(st: PollState, inp: CycleInput)
    requires inp.fault.FaultBeforeUpdate?
    ensures Next(st, inp).last == st.last
    ensures Next(st, inp).session.Some? <==> inp.relogin.Replied? && LoginSucceeded(inp.relogin.text)
  {
  }

  /**
   * An empty scrape (failed fetch, no table, no OTP rows, no session)
   * notifies nothing and empties the memory, so the next cycle treats its
   * whole page as new.
   */
  lemma EmptyScrapeResetsMemory(st: PollState, inp: CycleInput, inp2: CycleInput)
    requires Scraped(st, inp) == [] && inp.fault.NoFault? && !inp2.fault.FaultBeforeUpdate?
    ensures Notified(st, inp) == []
    ensures Next(st, inp).last == []
    ensures Notified(Next(st, inp), inp2) == Scraped(Next(st, inp), inp2)
  {
    EverythingNewAfterReset(Scraped(Next(st, inp), inp2));
  }

  /** The same page seen twice by completed cycles is notified at most once. */
  lemma UnchangedPageNotifiedOnce(st: PollState, inp: CycleInput, inp2: CycleInput)
    requires inp.fault.NoFault? && inp2.fetch == inp.fetch
    ensures Notified(Next(st, inp), inp2) == []
  {
    NothingNewTwice(Scraped(st, inp));
  }

  /** A record notified in a cycle after a completed one was not on the page that cycle saw. */
  lemma NoRenotifyInARow(st: PollState, inp: CycleInput, inp2: CycleInput, r: Record)
    requires inp.fault.NoFault?
    requires r in Notified(Next(st, inp), inp2)
    ensures r !in Scraped(st, inp)
  {
    NotifiedAreNew(Next(st, inp), inp2);
  }

  /** A record missing from one completed cycle's page is notified again when it returns. */
  lemma RenotifiedAfterAbsence(st: PollState, inp: CycleInput, inp2: CycleInput, r: Record)
    requires inp.fault.NoFault? && !inp2.fault.FaultBeforeUpdate?
    requires r !in Scraped(st, inp) && r in Scraped(Next(st, inp), inp2)
    ensures r in Notified(Next(st, inp), inp2)
  {
  }

  /**
   * Remembering the filtered list, as the loop does, notifies the same
   * records as remembering every extracted record of the previous page would.
   */
  lemma FilteredMemorySuffices(current: seq<Record>, prevData: seq<Row>)
    requires forall r :: r in current ==> WellFormed(r)
    ensures NewMessages(current, OtpRecords(prevData)) == NewMessages(current, AllRecords(prevData))
  {
    forall m | m in current ensures m in OtpRecords(prevData) <==> m in AllRecords(prevData) {
      OtpRecordsFilterAllRecords(prevData, m);
    }
    NewMessagesDependOnMembersOnly(current, OtpRecords(prevData), AllRecords(prevData));
  }

  /** Two known records and one new one on the page: only the new one is notified. */
  lemma OneNewRecordOneNotification(st: PollState, inp: CycleInput, r1: Record, r2: Record, r3: Record)
    requires st.last == [r1, r2] && Scraped(st, inp) == [r1, r2, r3] && r3 != r1 && r3 != r2
    requires inp.fault.NoFault?
    ensures Notified(st, inp) == [r3]
  {
    var last := [r1, r2];
    assert [r1, r2, r3][1..] == [r2, r3] && [r2, r3][1..] == [r3] && [r3][1..] == [];
    assert r1 in last && r2 in last && r3 !in last;
    assert NewMessages([r3], last) == [r3] + NewMessages([], last);
    assert NewMessages([r2, r3], last) == NewMessages([r3], last);
    assert NewMessages([r1, r2, r3], last) == NewMessages([r2, r3], last);
  }

  /** A "verification" text ending in a 6-digit code is notified with that code on its code line. */
  lemma VerificationCodeShown(r: Record, prefix: string, digits: string)
    requires prefix == "Your verification code is "
    requires |digits| == 6 && forall k :: 0 <= k < 6 ==> IsDigit(digits[k])
    requires r.text == prefix + digits
    ensures CodeText(r.text) == digits
    ensures Contains(FormatMessage(r), CodeLine(digits))
  {
    assert r.text == prefix + digits + "";
    CodeAfterDigitFreePrefix(prefix, digits, "");
    FormatMessageShape(r);
  }

  /** The loop over a sequence of cycles: final state and all records notified. */
  function Run(st: PollState, inputs: seq<CycleInput>): (PollState, seq<Record>)
    decreases |inputs|
  {
    if inputs == [] then (st, [])
    else
      var rest := Run(Next(st, inputs[0]), inputs[1..]);
      (rest.0, Notified(st, inputs[0]) + rest.1)
  }

  /**
   * After a failed re-login the session is `None`; every later scrape then
   * fails inside its own `try`, so as long as nothing else raises, the loop
   * never logs in again and never notifies.
   */
  lemma {:induction false} StuckWithoutSession(st: PollState, inputs: seq<CycleInput>)
    requires st.session.None?
    requires forall k :: 0 <= k < |inputs| ==> inputs[k].fault.NoFault?
    ensures Run(st, inputs).0.session.None?
    ensures Run(st, inputs).1 == []
    decreases |inputs|
  {
    if inputs != [] {
      StuckWithoutSession(Next(st, inputs[0]), inputs[1..]);
    }
  }

  /** How long the loop sleeps after a cycle: the configured interval, or 60 seconds after an exception. */
  function Pause(cfg: Config, inp: CycleInput): int {
    if inp.fault.NoFault? then cfg.checkInterval else 60
  }

  /** The login requests a cycle posts: none, or a fresh login after an exception. */
  function Relogins(cfg: Config, inp: CycleInput): (reqs: seq<LoginRequest>)
    ensures inp.fault.NoFault? <==> reqs == []
    ensures forall r :: r in reqs ==> r == LoginRequestFor(cfg)
  {
    if inp.fault.NoFault? then [] else [LoginRequestFor(cfg)]
  }

  /** Every posted request is the login for `cfg`, and the first login has been posted. */
  predicate LoginsFor(posted: seq<LoginRequest>, cfg: Config) {
    |posted| >= 1 && forall i :: 0 <= i < |posted| ==> posted[i] == LoginRequestFor(cfg)
  }

  /**
   * The monitor: its configuration, whether the loop runs, the loop's two
   * variables, and logs of the notifications handed to the bot, the login
   * requests posted and the sleeps taken.
   */
  class OtpMonitor {
    const config: Config
    var running: bool
    var session: Option<Session>
    var lastMessages: seq<Record>
    var outbox: seq<string>
    var posted: seq<LoginRequest>
    var pauses: seq<int>

    ghost predicate Valid()
      reads this
    {
      WellFormedState(PollState(session, lastMessages)) &&
      (!running ==> lastMessages == [] && outbox == [] && pauses == []) &&
      LoginsFor(posted, config)
    }

    function State(): PollState
      reads this
    {
      PollState(session, lastMessages)
    }

    /** The start of `monitor_otp_messages`: log in with `cfg`, and return at once if that failed. */
    constructor (cfg: Config, newSession: Session, reply: PostReply)
      ensures Valid()
      ensures config == cfg && posted == [LoginRequestFor(cfg)]
      ensures session == LoginToPanel(newSession, reply)
      ensures running <==> session.Some?
      ensures lastMessages == [] && outbox == [] && pauses == []
    {
      var s := LoginToPanel(newSession, reply);
      config := cfg;
      session := s;
      running := s.Some?;
      lastMessages := [];
      outbox := [];
      posted := [LoginRequestFor(cfg)];
      pauses := [];
    }

    /** The `for msg in new_messages` loop: one notification per record, in order. */
    method SendAll(records: seq<Record>)
      modifies this`outbox
      ensures outbox == old(outbox) + Notifications(records)
    {
      for i := 0 to |records|
        invariant outbox == old(outbox) + Notifications(records[..i])
      {
        var text := FormatMessage(records[i]);
        TakeSnoc(records, i);
        NotificationsSnoc(records[..i], records[i]);
        AppendSnoc(old(outbox), Notifications(records[..i]), text);
        outbox := outbox + [text];
      }
      assert records[..|records|] == records;
    }

    /** One pass of the `while True` loop, its `except` branch included. */
    method PollOnce(inp: CycleInput)
      requires Valid() && running
      modifies this
      ensures Valid() && running
      ensures State() == Next(old(State()), inp)
      ensures outbox == old(outbox) + Notifications(Notified(old(State()), inp))
      ensures pauses == old(pauses) + [Pause(config, inp)]
      ensures posted == old(posted) + Relogins(config, inp)
    {
      ghost var before := State();
      NextWellFormed(before, inp);
      var current := ScrapeSmsStats(session, inp.fetch);
      var sent, nextSession, nextLast := Settle(session, lastMessages, current, inp);
      SendAll(sent);
      session, lastMessages := nextSession, nextLast;
      LogCycle(inp);
    }

    /** The `time.sleep` that ends the cycle, and the login the `except` branch posts. */
    method LogCycle(inp: CycleInput)
      requires LoginsFor(posted, config)
      modifies this`pauses, this`posted
      ensures LoginsFor(posted, config)
      ensures pauses == old(pauses) + [Pause(config, inp)]
      ensures posted == old(posted) + Relogins(config, inp)
    {
      pauses := pauses + [Pause(config, inp)];
      posted := posted + Relogins(config, inp);
    }
  }

  /**
   * The body of one cycle once the page is scraped: which new records are
   * sent before any exception, and the loop's variables afterwards.
   */
  method Settle(session: Option<Session>, last: seq<Record>, current: seq<Record>, inp: CycleInput)
    returns (sent: seq<Record>, nextSession: Option<Session>, nextLast: seq<Record>)
    requires current == ScrapeResult(session, inp.fetch)
    ensures sent == Notified(PollState(session, last), inp)
    ensures PollState(nextSession, nextLast) == Next(PollState(session, last), inp)
  {
    var unseen := NewMessages(current, last);
    sent, nextSession, nextLast := unseen, session, current;
    match inp.fault {
      case NoFault =>
      case FaultBeforeUpdate(k) =>
        sent := unseen[..Min(k, |unseen|)];
        nextSession, nextLast := LoginToPanel(inp.newSession, inp.relogin), last;
      case FaultAfterUpdate =>
        nextSession := LoginToPanel(inp.newSession, inp.relogin);
    }
  }

  /** A login that raised, or whose reply carries neither marker, leaves the program without a loop to run. */
  method FailedLoginNeverPolls(cfg: Config, newSession: Session, reply: PostReply) returns (m: OtpMonitor)
    requires reply.PostFailed? || !LoginSucceeded(reply.text)
    ensures !m.running && m.session.None?
    ensures m.outbox == [] && m.pauses == [] && m.posted == [LoginRequestFor(cfg)]
  {
    m := new OtpMonitor(cfg, newSession, reply);
  }
}
