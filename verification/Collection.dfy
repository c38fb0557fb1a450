/** Collecting the socket report for a wrapper (wrap.go), and what the stored reports say in every run. */
module Collection {
  import opened Wrappers
  import S = SysInfo
  import opened Lifecycle
  import opened Protocol
  import opened Reports
  import opened Ordering
  import opened Results

  /** What the connection and its socket would answer. */
  datatype Socket = Socket(isTcp: bool, rawConnErr: Option<Error>, controlErr: Option<Error>, sys: S.Syscalls)

  /** `collectTCPInfo`. */
  function Collect(supported: bool, conn: Option<ConnId>, flags: S.Flags, socket: Socket): Outcome {
    if !supported then S.Outcome(None, None)
    else if conn == None || !socket.isTcp then S.Outcome(None, None)
    else if socket.rawConnErr.Some? then S.Outcome(None, socket.rawConnErr)
    else if socket.controlErr.Some? then S.Outcome(None, socket.controlErr)
    else
      var r := S.GetTcpInfo(flags, socket.sys);
      if r.info == None then S.Outcome(None, r.err) else S.Outcome(Some(S.ToInfo(r.info.value)), r.err)
  }

  /**
   A report comes with the socket data it was made from, whose congestion fields are those of the algorithm it names,
   all of them or none, and none if there was an error.
   */
  predicate Sound(o: Outcome) {
    o.info.Some? ==>
      && o.info.value.sys.Some?
      && o.info.value == S.ToInfo(o.info.value.sys.value)
      && o.info.value.sys.value.cc.Keys == if o.err.Some? then {} else S.CcFieldsOf(o.info.value.sys.value.ccAlgorithm)
  }

  lemma CollectIsSound(supported: bool, conn: Option<ConnId>, flags: S.Flags, socket: Socket)
    ensures Sound(Collect(supported, conn, flags, socket))
  {
    S.GetTcpInfoOutcome(flags, socket.sys);
  }

  /** The kernel and the connection allow a report, and every call that it needs succeeds. */
  predicate Obtainable(supported: bool, conn: Option<ConnId>, flags: S.Flags, socket: Socket) {
    && supported && conn.Some? && socket.isTcp && socket.rawConnErr == None && socket.controlErr == None
    && flags[0] && socket.sys.raw.Success?
  }

  /** What a report holds: the struct that was fetched, unpacked, and the algorithm that was named. */
  predicate HoldsFetched(info: InfoValue, flags: S.Flags, sys: S.Syscalls)
    requires sys.raw.Success?
  {
    && info.sys.Some?
    && var u := info.sys.value;
    && info == S.ToInfo(u)
    && u == S.Unpacked(sys.raw.value, flags).(ccAlgorithm := u.ccAlgorithm, cc := u.cc)
    && u.ccAlgorithm == (if sys.alg.Success? then sys.alg.value else S.Unnamed)
  }

  /**
   A report comes back exactly when it is obtainable, and holds what was fetched. The error is that of the first thing
   that failed; there is none where the report is not supported or the connection is no TCP connection.
   */
  lemma CollectOutcome(supported: bool, conn: Option<ConnId>, flags: S.Flags, socket: Socket)
    ensures var r := Collect(supported, conn, flags, socket);
            && (r.info.Some? <==> Obtainable(supported, conn, flags, socket))
            && (r.info.Some? ==> HoldsFetched(r.info.value, flags, socket.sys))
            && r.err == if !supported || conn == None || !socket.isTcp then None
                        else S.FirstError(
                               [socket.rawConnErr] + ([socket.controlErr] + S.ErrorsInOrder(flags, socket.sys)))
  {
    S.GetTcpInfoOutcome(flags, socket.sys);
    S.FirstErrorOfCons(socket.rawConnErr, [socket.controlErr] + S.ErrorsInOrder(flags, socket.sys));
    S.FirstErrorOfCons(socket.controlErr, S.ErrorsInOrder(flags, socket.sys));
  }

  /** The sockets, with the version flags of the time, that answered when the wrapper was made and closed. */
  datatype Sockets = Sockets(openFlags: S.Flags, atOpen: Socket, closeFlags: S.Flags, atClose: Socket)

  ghost predicate AnsweredBy(k: Sockets, setup: Setup, s: State, moves: seq<Move>)
    requires IsRun(s, moves)
  {
    && setup.answer == Collect(setup.supported, setup.conn, k.openFlags, k.atOpen)
    && forall o | o in Answered(s, moves) :: o == Collect(setup.supported, setup.conn, k.closeFlags, k.atClose)
  }

  /**
   In every run both stored reports are there exactly when they were obtainable, and hold what the socket of the time
   gave: the one at open in every state, the one at close from the moment the copy is taken.
   */
  lemma StoredReportsAreThoseObtained(setup: Setup, s: State, moves: seq<Move>, k: Sockets)
    requires setup.conn.Some? && Init(setup, s) && IsRun(s, moves) && AnsweredBy(k, setup, s, moves)
    ensures var t := Run(s, moves);
            && (t.w.openedInfo.Some? <==> Obtainable(setup.supported, setup.conn, k.openFlags, k.atOpen))
            && (t.w.openedInfo.Some? ==> HoldsFetched(t.w.openedInfo.value, k.openFlags, k.atOpen.sys))
            && (t.w.closedInfo.Some? <==>
                Sealed(t) && Obtainable(setup.supported, setup.conn, k.closeFlags, k.atClose))
            && (t.w.closedInfo.Some? ==> HoldsFetched(t.w.closedInfo.value, k.closeFlags, k.atClose.sys))
  {
    InfoIsWhatWasAnswered(setup, s, moves);
    CollectOutcome(setup.supported, setup.conn, k.openFlags, k.atOpen);
    CollectOutcome(setup.supported, setup.conn, k.closeFlags, k.atClose);
    if Sealed(Run(s, moves)) { assert Answered(s, moves)[0] in Answered(s, moves); }
  }

  /** The outcome is what collecting from some socket gives, under some setting of the version flags. */
  ghost predicate FromSocket(supported: bool, conn: Option<ConnId>, o: Outcome) {
    exists flags, socket :: o == Collect(supported, conn, flags, socket)
  }

  lemma FromSocketIsSound(supported: bool, conn: Option<ConnId>, o: Outcome)
    requires FromSocket(supported, conn, o)
    ensures Sound(o)
  {
    var flags, socket :| o == Collect(supported, conn, flags, socket);
    CollectIsSound(supported, conn, flags, socket);
  }

  ghost predicate SocketAnswers(setup: Setup, moves: seq<Move>) {
    && FromSocket(setup.supported, setup.conn, setup.answer)
    && forall m | m in moves :: FromSocket(setup.supported, setup.conn, m.env.answer)
  }

  ghost predicate SoundAnswers(moves: seq<Move>) {
    forall m | m in moves :: Sound(m.env.answer)
  }

  ghost predicate SoundTrace(trace: seq<Event>) {
    forall e | e in trace && e.InfoCollected? :: Sound(e.outcome)
  }

  lemma {:induction false} RunCollectsSoundly(s: State, moves: seq<Move>)
    requires IsRun(s, moves) && SoundAnswers(moves) && SoundTrace(s.trace)
    ensures SoundTrace(Run(s, moves).trace)
    decreases |moves|
  {
    if moves != [] {
      assert moves[0] in moves;
      StepAddsEvents(s, moves[0].call, moves[0].env);
      RunCollectsSoundly(Step(s, moves[0].call, moves[0].env), moves[1..]);
    }
  }

  /**
   In every run in which the answers come from sockets, whatever these answer each time, both stored reports are sound:
   the open-time one in every state, the close-time one from the moment it is stored, together with its error.
   */
  lemma StoredReportsAreSound(setup: Setup, s: State, moves: seq<Move>)
    requires setup.conn.Some? && Init(setup, s) && IsRun(s, moves) && SocketAnswers(setup, moves)
    ensures var t := Run(s, moves);
            && Sound(S.Outcome(t.w.openedInfo, Wrapped(setup).infoErr))
            && Sound(S.Outcome(t.w.closedInfo, t.w.infoErr))
  {
    FromSocketIsSound(setup.supported, setup.conn, setup.answer);
    forall m | m in moves ensures Sound(m.env.answer) {
      FromSocketIsSound(setup.supported, setup.conn, m.env.answer);
    }
    RunCollectsSoundly(s, moves);
    InfoFieldsOverRun(setup, s, moves);
    var t := Run(s, moves);
    if t.w.closedInfo.Some? {
      var o :| InfoCollected(o) in t.trace && InfoApplied(Wrapped(setup), t.w, o);
      assert Sound(o);
    }
  }
}
