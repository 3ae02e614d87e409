/**
 The auto-negotiation of the Broadcom driver (package/broadcom-57xx/src/autoneg.c), written after section
 37.3.1.5 of IEEE 802.3z.
 */
module Autoneg {
  import opened Options

  datatype Phase =
    | Unknown | AnEnable | RestartInit | Restart | DisableLinkOk | AbilityDetectInit | AbilityDetect
    | AckDetectInit | AckDetect | CompleteAckInit | CompleteAck | IdleDetectInit | IdleDetect | LinkOk
    | NextPageWaitInit | NextPageWait

  datatype Status = Ok | Done | TimerEnabled | Failed

  const LINK_TIMER: nat := 12000      // AN_LINK_TIMER_INTERVAL_US
  const ULONG: nat := 0x1_0000_0000

  /** A configuration word: the bits with a meaning (D5-D8, D12-D15), and the eight invalid ones as one number. */
  datatype Word = Word(fd: bool, hd: bool, ps1: bool, ps2: bool,
                       rf1: bool, rf2: bool, ack: bool, np: bool, invalid: nat)

  const ZERO := Word(false, false, false, false, false, false, false, false, 0)

  /** What the advertisement registers hold of a word. */
  function Abilities(w: Word): Word {
    w.(ack := false, invalid := 0)
  }

  /** AbilityMatchCnt, AbilityMatchCfg and the three match flags. */
  datatype Match = Match(cnt: nat, cfg: Word, ability: bool, idle: bool, ack: bool)

  const NO_MATCH := Match(0, ZERO, false, false, false)

  /** The management registers; adv and lp are the advertisement registers as configuration words. */
  datatype Regs = Regs(enable: bool, restart: bool, complete: bool, linkOk: bool, adv: Word, lp: Word,
                       toggleTx: bool, npRx: bool, pageRx: bool, npLoaded: bool)

  /** AN_STATE_INFO and the SEND_CONFIGS bit of the MAC mode register. */
  datatype Info = Info(state: Phase, linkTime: nat, time: nat, m: Match, tx: Word, rx: Word, regs: Regs,
                       sendConfigs: bool)

  /** Unsigned subtraction of unsigned long. */
  function Delta(time: nat, linkTime: nat): int {
    (time - linkTime) % ULONG
  }

  function NextCount(n: nat): nat {
    (n + 1) % ULONG
  }

  /** Lines 147-186: the match flags are brought up to date with what was received. */
  function Update(m: Match, rx: Option<Word>): Match {
    match rx
    case Some(c) =>
      if c != m.cfg then Match(0, c, false, false, c.ack)
      else Match(NextCount(m.cnt), c, m.ability || NextCount(m.cnt) > 1, false, c.ack)
    case None => Match(0, ZERO, false, true, false)
  }

  function Received(rx: Option<Word>): Word {
    if rx.Some? then rx.value else ZERO
  }

  /** Lines 130-189 */
  function Sample(a: Info, rx: Option<Word>): Info {
    if a.state == Unknown then a.(time := 0, linkTime := 0, m := Update(NO_MATCH, rx), rx := Received(rx))
    else a.(m := Update(a.m, rx), rx := Received(rx))
  }

  function EnableStep(a: Info): Info {
    var regs := a.regs.(complete := false, pageRx := false);
    if regs.enable then a.(linkTime := 0, m := NO_MATCH, regs := regs, state := RestartInit)
    else a.(regs := regs, state := DisableLinkOk)
  }

  function RestartStep(a: Info): (Info, Status) {
    if Delta(a.time, a.linkTime) > LINK_TIMER then (a.(state := AbilityDetectInit), Ok) else (a, TimerEnabled)
  }

  function AckStep(a: Info): Info {
    if a.m.ack then
      a.(state := if a.rx.(ack := false) == a.m.cfg.(ack := false) then CompleteAckInit else AnEnable)
    else if a.m.ability && a.rx == ZERO then a.(state := AnEnable)
    else a
  }

  function CompleteInitStep(a: Info): (Info, Status) {
    if a.rx.invalid != 0 then (a, Failed)
    else
      var regs := a.regs.(lp := Abilities(a.rx), toggleTx := !a.regs.toggleTx, npRx := a.rx.np, pageRx := true);
      (a.(linkTime := a.time, regs := regs, state := CompleteAck), TimerEnabled)
  }

  function CompleteStep(a: Info): (Info, Status) {
    if a.m.ability && a.rx == ZERO then (a.(state := AnEnable), Ok)
    else if Delta(a.time, a.linkTime) <= LINK_TIMER then (a, Ok)
    else if !a.regs.adv.np || !a.regs.lp.np || (!a.tx.np && !a.regs.npRx) then (a.(state := IdleDetectInit), Ok)
    else (a, Failed)
  }

  function IdleStep(a: Info): Info {
    if a.m.ability && a.rx == ZERO then a.(state := AnEnable)
    else if Delta(a.time, a.linkTime) > LINK_TIMER then a.(state := LinkOk)
    else a
  }

  /** Lines 191-435: the switch over the state, with its fall-throughs. */
  function Act(a: Info): (Info, Status) {
    match a.state
    case Unknown =>
      (EnableStep(if a.regs.enable || a.regs.restart then a.(time := 0, state := AnEnable) else a), Ok)
    case AnEnable => (EnableStep(a), Ok)
    case RestartInit =>
      RestartStep(a.(linkTime := a.time, tx := ZERO, sendConfigs := true, regs := a.regs.(npLoaded := false),
                     state := Restart))
    case Restart => RestartStep(a)
    case DisableLinkOk => (a, Done)
    case AbilityDetectInit =>
      var regs := a.regs.(toggleTx := false);
      (a.(tx := Abilities(regs.adv), sendConfigs := true, regs := regs, state := AbilityDetect), Ok)
    case AbilityDetect => (if a.m.ability && a.rx != ZERO then a.(state := AckDetectInit) else a, Ok)
    case AckDetectInit => (AckStep(a.(tx := a.tx.(ack := true), sendConfigs := true, state := AckDetect)), Ok)
    case AckDetect => (AckStep(a), Ok)
    case CompleteAckInit => CompleteInitStep(a)
    case CompleteAck => CompleteStep(a)
    case IdleDetectInit => (a.(sendConfigs := false, linkTime := a.time, state := IdleDetect), TimerEnabled)
    case IdleDetect => (IdleStep(a), Ok)
    case LinkOk => (a.(regs := a.regs.(complete := true, linkOk := true)), Done)
    case NextPageWaitInit => (a, Ok)
    case NextPageWait => (a, Ok)
  }

  /** Autoneg8023z */
  function Step(a: Info, rx: Option<Word>): (Info, Status) {
    Act(Sample(a, rx))
  }

  class Negotiator {
    var state: Phase
    var linkTime: nat
    var time: nat
    var m: Match
    var tx: Word
    var rx: Word
    var regs: Regs
    var sendConfigs: bool

    ghost function Now(): Info
      reads this
    {
      Info(state, linkTime, time, m, tx, rx, regs, sendConfigs)
    }

    /** AutonegInit: everything zero but the advertised abilities (full duplex, both pause bits) and an_enable. */
    constructor ()
      ensures state == Unknown && regs.enable && !regs.restart && !regs.linkOk && !sendConfigs && m == NO_MATCH
      ensures regs.adv == ZERO.(fd := true, ps1 := true, ps2 := true)
    {
      state, linkTime, time, m, tx, rx, sendConfigs := Unknown, 0, 0, NO_MATCH, ZERO, ZERO, false;
      regs := Regs(true, false, false, false, ZERO.(fd := true, ps1 := true, ps2 := true), ZERO,
                   false, false, false, false);
    }

    /** Lines 130-189 */
    method TakeSample(received: Option<Word>)
      modifies this
      ensures Now() == Sample(old(Now()), received)
    {
      if state == Unknown {
        rx, time, linkTime, m := ZERO, 0, 0, NO_MATCH;
      }
      var c := ZERO;
      if received.Some? {
        c := received.value;
        if c != m.cfg {
          m := m.(cfg := c, ability := false, cnt := 0);
        } else {
          m := m.(cnt := NextCount(m.cnt));
          if m.cnt > 1 {
            m := m.(ability := true, cfg := c);
          }
        }
        m := m.(ack := c.ack, idle := false);
      } else {
        m := Match(0, ZERO, false, true, false);
      }
      rx := c;
    }

    /** The states entered by a fall-through. */
    method Restarting() returns (status: Status)
      modifies this`state
      ensures (Now(), status) == RestartStep(old(Now()))
    {
      if Delta(time, linkTime) > LINK_TIMER {
        state := AbilityDetectInit;
        status := Ok;
      } else {
        status := TimerEnabled;
      }
    }

    method Enabling()
      modifies this`state, this`regs, this`linkTime, this`m
      ensures Now() == EnableStep(old(Now()))
    {
      regs := regs.(complete := false, pageRx := false);
      if regs.enable {
        linkTime, m := 0, NO_MATCH;
        state := RestartInit;
      } else {
        state := DisableLinkOk;
      }
    }

    method Acknowledging()
      modifies this`state
      ensures Now() == AckStep(old(Now()))
    {
      if m.ack {
        if rx.(ack := false) == m.cfg.(ack := false) {
          state := CompleteAckInit;
        } else {
          state := AnEnable;
        }
      } else if m.ability && rx == ZERO {
        state := AnEnable;
      }
    }

    /** Lines 317-413: the later states of an attempt. */
    method Completing() returns (status: Status)
      requires Rank(state) >= 7
      modifies this
      ensures (Now(), status) == Act(old(Now()))
    {
      status := Ok;
      if state == CompleteAckInit {
        if rx.invalid != 0 {
          return Failed;
        }
        linkTime := time;
        regs := regs.(lp := Abilities(rx), toggleTx := !regs.toggleTx, npRx := rx.np, pageRx := true);
        state := CompleteAck;
        status := TimerEnabled;
      } else if state == CompleteAck {
        if m.ability && rx == ZERO {
          state := AnEnable;
        } else if Delta(time, linkTime) > LINK_TIMER {
          if !regs.adv.np || !regs.lp.np || (!tx.np && !regs.npRx) {
            state := IdleDetectInit;
          } else {
            status := Failed;
          }
        }
      } else if state == IdleDetectInit {
        linkTime := time;
        sendConfigs := false;
        state := IdleDetect;
        status := TimerEnabled;
      } else if state == IdleDetect {
        if m.ability && rx == ZERO {
          state := AnEnable;
        } else if Delta(time, linkTime) > LINK_TIMER {
          state := LinkOk;
        }
      } else {
        regs := regs.(complete := true, linkOk := true);
        status := Done;
      }
    }

    method Autoneg8023z(received: Option<Word>) returns (status: Status)
      modifies this
      ensures (Now(), status) == Step(old(Now()), received)
    {
      TakeSample(received);
      status := Ok;
      match state {
        case Unknown =>
          if regs.enable || regs.restart {
            time := 0;
            state := AnEnable;
          }
          Enabling();
        case AnEnable => Enabling();
        case RestartInit =>
          linkTime := time;
          regs := regs.(npLoaded := false);
          tx, sendConfigs := ZERO, true;
          state := Restart;
          status := Restarting();
        case Restart => status := Restarting();
        case DisableLinkOk => status := Done;
        case AbilityDetectInit =>
          regs := regs.(toggleTx := false);
          tx, sendConfigs := Abilities(regs.adv), true;
          state := AbilityDetect;
        case AbilityDetect =>
          if m.ability && rx != ZERO {
            state := AckDetectInit;
          }
        case AckDetectInit =>
          tx, sendConfigs := tx.(ack := true), true;
          state := AckDetect;
          Acknowledging();
        case AckDetect => Acknowledging();
        case NextPageWaitInit =>
        case NextPageWait =>
        case _ => status := Completing();
      }
    }
  }

  // ----- runs -----

  /** What the caller supplies before each call: CurrentTime_us, and the configuration word received, if any. */
  datatype Input = Input(time: nat, rx: Option<Word>)

  /** One call: time has not gone back and not wrapped; what is received is free. */
  predicate CallOk(r: seq<Info>, ins: seq<Input>, i: nat)
    requires |r| == |ins| + 1 && i < |ins|
  {
    && r[i].time <= ins[i].time < ULONG
    && r[i + 1] == Step(r[i].(time := ins[i].time), ins[i].rx).0
  }

  ghost predicate Run(r: seq<Info>, ins: seq<Input>) {
    |r| == |ins| + 1 && forall i :: 0 <= i < |ins| ==> CallOk(r, ins, i)
  }

  /** As AutonegInit leaves it, or at the start of a later attempt. */
  predicate Starts(a: Info) {
    a.state == Unknown || a.state == AnEnable
  }

  /** The states of one attempt, in order; ack detect may be passed over. */
  function Rank(s: Phase): int {
    match s
    case AnEnable => 0
    case RestartInit => 1
    case Restart => 2
    case AbilityDetectInit => 3
    case AbilityDetect => 4
    case AckDetectInit => 5
    case AckDetect => 6
    case CompleteAckInit => 7
    case CompleteAck => 8
    case IdleDetectInit => 9
    case IdleDetect => 10
    case LinkOk => 11
    case _ => -1
  }

  lemma SampleMatches(a: Info, rx: Option<Word>)
    ensures Sample(a, rx).m.cfg == Sample(a, rx).rx
    ensures a.state != Unknown ==> Sample(a, rx).state == a.state
  {
  }

  /** From one state of an attempt a call stays, moves to the next one, passes over ack detect, or starts again. */
  lemma StepRank(a: Info, rx: Option<Word>)
    requires Rank(a.state) >= 0 && a.time < ULONG
    ensures var k, k' := Rank(a.state), Rank(Step(a, rx).0.state);
            || k' == k + 1
            || (k' == k && k in {2, 4, 6, 7, 8, 10, 11})
            || (k == 5 && k' == 7)
            || (k' == 0 && k in {5, 6, 8, 10})
            || (k == 0 && k' == -1)
  {
    SampleMatches(a, rx);
  }

  /** The mismatch branch of ack detect is never taken: an acknowledged word always completes. */
  lemma AckAlwaysCompletes(a: Info, rx: Option<Word>)
    requires (a.state == AckDetect || a.state == AckDetectInit) && Sample(a, rx).m.ack
    ensures Step(a, rx).0.state == CompleteAckInit
  {
    SampleMatches(a, rx);
  }

  lemma RunStep(r: seq<Info>, ins: seq<Input>, i: nat)
    requires Run(r, ins) && i < |ins|
    ensures r[i].time <= ins[i].time < ULONG && r[i + 1] == Step(r[i].(time := ins[i].time), ins[i].rx).0
  {
    assert CallOk(r, ins, i);
  }

  /** The state UNKNOWN is left in the first call, for restart or, if disabled, for good. */
  lemma FirstCall(r: seq<Info>, ins: seq<Input>)
    requires Run(r, ins) && Starts(r[0]) && |ins| > 0
    ensures r[1].state == if r[0].regs.enable then RestartInit else DisableLinkOk
    ensures r[0].regs.enable ==> r[1].m == NO_MATCH
  {
    RunStep(r, ins, 0);
  }

  lemma {:induction false} NeverUnknown(r: seq<Info>, ins: seq<Input>, i: nat)
    requires Run(r, ins) && Starts(r[0]) && 1 <= i < |r|
    ensures r[i].state != Unknown
    ensures !r[0].regs.enable ==> r[i].state == DisableLinkOk
  {
    FirstCall(r, ins);
    if i > 1 {
      NeverUnknown(r, ins, i - 1);
      RunStep(r, ins, i - 1);
    }
  }

  /** How the rank moves from one state of a run to the next. */
  lemma RankStep(r: seq<Info>, ins: seq<Input>, i: nat)
    requires Run(r, ins) && Starts(r[0]) && 1 <= i < |r|
    ensures var k, k' := Rank(r[i - 1].state), Rank(r[i].state);
            k' <= k + 1 || (k == 5 && k' == 7) || (i == 1 && r[0].state == Unknown && k' == 1)
    ensures r[i].state == Restart ==> r[i - 1].state == RestartInit || r[i - 1].state == Restart
    ensures Rank(r[i].state) >= 2 ==> Rank(r[i - 1].state) >= 1
  {
    RunStep(r, ins, i - 1);
    var a := r[i - 1].(time := ins[i - 1].time);
    if i == 1 {
      FirstCall(r, ins);
    } else {
      NeverUnknown(r, ins, i - 1);
      if Rank(a.state) >= 0 { StepRank(a, ins[i - 1].rx); }
    }
  }

  /** The states an attempt cannot do without. */
  predicate Required(k: int) {
    0 <= k <= 11 && k != 6
  }

  /**
   Where the current attempt entered the state of rank k: from there on the
   run has not fallen below k.
   */
  lemma {:induction false} Entered(r: seq<Info>, ins: seq<Input>, i: nat, k: int) returns (j: nat)
    requires Run(r, ins) && Starts(r[0]) && i < |r|
    requires Required(k) && Rank(r[i].state) >= k && (k == 0 ==> r[0].state == AnEnable)
    ensures j <= i && Rank(r[j].state) == k
    ensures forall n :: j <= n <= i ==> Rank(r[n].state) >= k
    ensures j == 0 || Rank(r[j - 1].state) < k
  {
    if i == 0 {
      j := 0;
    } else {
      RankStep(r, ins, i);
      if Rank(r[i - 1].state) >= k {
        j := Entered(r, ins, i - 1, k);
      } else {
        j := i;
      }
    }
  }

  /** Every run to LINK_OK passed all the states of an attempt, one after the other. */
  lemma InOrder(r: seq<Info>, ins: seq<Input>, i: nat, k: int, k': int) returns (j: nat, j': nat)
    requires Run(r, ins) && Starts(r[0]) && i < |r| && r[i].state == LinkOk
    requires Required(k) && Required(k') && k < k' && (k == 0 ==> r[0].state == AnEnable)
    ensures j < j' <= i && Rank(r[j].state) == k && Rank(r[j'].state) == k'
    ensures forall n :: j <= n <= i ==> Rank(r[n].state) >= k
  {
    j := Entered(r, ins, i, k);
    j' := Entered(r, ins, i, k');
  }

  // ----- timers -----

  /** What the link timers have measured since time t at which the restart timer was set. */
  predicate Timed(a: Info, t: nat) {
    var k := Rank(a.state);
    && t <= a.time < ULONG
    && (k == 2 ==> a.linkTime == t)
    && (3 <= k <= 7 ==> a.time > t + LINK_TIMER)
    && (k == 8 ==> a.time >= a.linkTime > t + LINK_TIMER)
    && (k == 9 ==> a.time > t + 2 * LINK_TIMER)
    && (k == 10 ==> a.time >= a.linkTime > t + 2 * LINK_TIMER)
    && (k == 11 ==> a.time > t + 3 * LINK_TIMER)
  }

  lemma TimedStep(a: Info, rx: Option<Word>, time: nat, t: nat)
    requires Rank(a.state) >= 2 && Timed(a, t) && a.time <= time < ULONG
    ensures var b := Step(a.(time := time), rx).0; Rank(b.state) >= 2 ==> Timed(b, t)
  {
  }

  lemma TimedRun(r: seq<Info>, ins: seq<Input>, i: nat, t: nat)
    requires Run(r, ins) && 1 <= i < |r| && Rank(r[i].state) >= 2
    requires
      || (Rank(r[i - 1].state) >= 2 && Timed(r[i - 1], t))
      || (r[i - 1].state == RestartInit && t == ins[i - 1].time)
    ensures Timed(r[i], t)
  {
    RunStep(r, ins, i - 1);
    if r[i - 1].state != RestartInit { TimedStep(r[i - 1], ins[i - 1].rx, ins[i - 1].time, t); }
  }

  /** An attempt that has set the restart timer, and when it did. */
  lemma {:induction false} AttemptTimed(r: seq<Info>, ins: seq<Input>, i: nat) returns (j: nat)
    requires Run(r, ins) && Starts(r[0]) && i < |r| && Rank(r[i].state) >= 2
    ensures j < i && r[j].state == RestartInit && Timed(r[i], ins[j].time)
  {
    RankStep(r, ins, i);
    if Rank(r[i - 1].state) >= 2 {
      j := AttemptTimed(r, ins, i - 1);
    } else {
      j := i - 1;
    }
    TimedRun(r, ins, i, ins[j].time);
  }

  /** From the restart of the attempt to LINK_OK more than 36000 microseconds pass. */
  lemma LinkTakesTime(r: seq<Info>, ins: seq<Input>, i: nat) returns (j: nat)
    requires Run(r, ins) && Starts(r[0]) && i < |r| && r[i].state == LinkOk
    ensures j < i && r[j].state == RestartInit && r[i].time > ins[j].time + 36000
  {
    j := AttemptTimed(r, ins, i);
  }

  // ----- matching -----

  /** The samples that the match fields stand for. */
  ghost predicate Matched(m: Match, ins: seq<Input>, i: nat)
    requires i <= |ins|
  {
    m.cfg != ZERO ==>
      && i >= 1 && ins[i - 1].rx == Some(m.cfg)
      && (m.cnt >= 1 || m.ability ==> i >= 2 && ins[i - 2].rx == Some(m.cfg))
      && (m.ability ==> i >= 3 && ins[i - 3].rx == Some(m.cfg))
      && (m.cnt >= 2 ==> m.ability)
  }

  lemma MatchedUpdate(m: Match, ins: seq<Input>, i: nat)
    requires i < |ins| && Matched(m, ins, i)
    ensures Matched(Update(m, ins[i].rx), ins, i + 1)
  {
  }

  lemma MatchRun(r: seq<Info>, ins: seq<Input>, i: nat)
    requires Run(r, ins) && Starts(r[0]) && 1 <= i < |ins|
    ensures r[i + 1].m == Update(r[i].m, ins[i].rx) || r[i + 1].m == NO_MATCH
  {
    RunStep(r, ins, i);
    NeverUnknown(r, ins, i);
  }

  /** One call either takes the sample into account or starts afresh. */
  predicate MatchStep(m: Match, inp: Input, m': Match) {
    m' == Update(m, inp.rx) || m' == NO_MATCH
  }

  lemma {:induction false} MatchedAlong(ms: seq<Match>, ins: seq<Input>, i: nat)
    requires |ms| == |ins| + 1 && 1 <= i < |ms| && ms[1] == NO_MATCH
    requires forall k, l :: 1 <= k < l < |ms| && l == k + 1 ==> MatchStep(ms[k], ins[k], ms[l])
    ensures Matched(ms[i], ins, i)
  {
    if i > 1 {
      MatchedAlong(ms, ins, i - 1);
      assert MatchStep(ms[i - 1], ins[i - 1], ms[i]);
      MatchedUpdate(ms[i - 1], ins, i - 1);
    }
  }

  lemma RunMatched(r: seq<Info>, ins: seq<Input>, i: nat)
    requires Run(r, ins) && Starts(r[0]) && 1 <= i < |r| && r[i].state != DisableLinkOk
    ensures Matched(r[i].m, ins, i)
  {
    var ms := seq(|r|, k requires 0 <= k < |r| => r[k].m);
    FirstCall(r, ins);
    NeverUnknown(r, ins, i);
    forall k, l | 1 <= k < l < |ms| && l == k + 1 ensures MatchStep(ms[k], ins[k], ms[l]) {
      MatchRun(r, ins, k);
    }
    MatchedAlong(ms, ins, i);
  }

  /** Ability detect is left only after three equal words in a row, none of them zero. */
  lemma ThreeEqualWords(r: seq<Info>, ins: seq<Input>, i: nat)
    requires Run(r, ins) && Starts(r[0]) && i < |ins|
    requires r[i].state == AbilityDetect && r[i + 1].state != AbilityDetect
    ensures i >= 2 && ins[i].rx == ins[i - 1].rx == ins[i - 2].rx && ins[i].rx.Some? && ins[i].rx.value != ZERO
    ensures r[i + 1].state == AckDetectInit
  {
    RunStep(r, ins, i);
    if i > 0 {
      RunMatched(r, ins, i);
      MatchedUpdate(r[i].m, ins, i);
    }
  }

  // ----- SEND_CONFIGS -----

  /** In idle detect and LINK_OK no configuration words are sent. */
  lemma {:induction false} IdleIsSilent(r: seq<Info>, ins: seq<Input>, i: nat)
    requires Run(r, ins) && Starts(r[0]) && i < |r| && Rank(r[i].state) >= 10
    ensures !r[i].sendConfigs
  {
    RankStep(r, ins, i);
    if Rank(r[i - 1].state) >= 10 { IdleIsSilent(r, ins, i - 1); }
    RunStep(r, ins, i - 1);
  }

  // ----- what is sent, and the management registers -----

  /** What is sent in every state of an attempt. */
  predicate Sends(a: Info) {
    var k := Rank(a.state);
    && (2 <= k <= 3 ==> a.tx == ZERO)
    && (4 <= k <= 5 ==> a.tx == Abilities(a.regs.adv))
    && (6 <= k ==> a.tx == Abilities(a.regs.adv).(ack := true))
    && (2 <= k <= 9 ==> a.sendConfigs) && (10 <= k ==> !a.sendConfigs)
  }

  predicate Registers(a: Info) {
    var k := Rank(a.state);
    && (2 <= k ==> !a.regs.npLoaded) && (4 <= k <= 7 ==> !a.regs.toggleTx) && (8 <= k ==> a.regs.toggleTx)
    && (1 <= k <= 10 ==> !a.regs.complete) && (1 <= k <= 7 ==> !a.regs.pageRx) && (8 <= k ==> a.regs.pageRx)
  }

  lemma EarlySends(a: Info, rx: Option<Word>)
    requires Sends(a) && (0 <= Rank(a.state) <= 4 || a.state == Unknown)
    ensures Sends(Step(a, rx).0) && Step(a, rx).0.regs.adv == a.regs.adv
  {
  }

  lemma AckSends(a: Info, rx: Option<Word>)
    requires Sends(a) && 5 <= Rank(a.state) <= 6
    ensures Sends(Step(a, rx).0) && Step(a, rx).0.regs.adv == a.regs.adv
  {
    var b := Step(a, rx).0;
    assert Rank(b.state) == 0 || Rank(b.state) == 6 || Rank(b.state) == 7;
    assert b.tx == a.tx.(ack := true) && b.sendConfigs && b.regs == a.regs;
  }

  lemma LateSends(a: Info, rx: Option<Word>)
    requires Sends(a) && 7 <= Rank(a.state)
    ensures Sends(Step(a, rx).0) && Step(a, rx).0.regs.adv == a.regs.adv
  {
    var b := Step(a, rx).0;
    assert b.tx == a.tx && b.regs.adv == a.regs.adv;
    assert Rank(b.state) == 0 || Rank(b.state) >= 7;
  }

  lemma SendsStep(a: Info, rx: Option<Word>)
    requires Sends(a) && (Rank(a.state) >= 0 || a.state == Unknown)
    ensures Sends(Step(a, rx).0) && Step(a, rx).0.regs.adv == a.regs.adv
  {
    if a.state == Unknown || Rank(a.state) <= 4 {
      EarlySends(a, rx);
    } else if Rank(a.state) <= 6 {
      AckSends(a, rx);
    } else {
      LateSends(a, rx);
    }
  }

  lemma RegistersStep(a: Info, rx: Option<Word>)
    requires Registers(a) && (Rank(a.state) >= 0 || a.state == Unknown)
    ensures Registers(Step(a, rx).0)
  {
    var b := Step(a, rx).0;
    if 5 <= Rank(a.state) <= 6 || Rank(a.state) == 10 { assert b.regs == a.regs; }
  }

  /**
   In ability detect the advertised word is sent, from ack detect on that word with ACK, and zero before; the registers
   are those of the state.
   */
  lemma {:induction false} Sent(r: seq<Info>, ins: seq<Input>, i: nat)
    requires Run(r, ins) && Starts(r[0]) && i < |r|
    ensures Sends(r[i]) && Registers(r[i]) && r[i].regs.adv == r[0].regs.adv
  {
    if i > 0 {
      Sent(r, ins, i - 1);
      RunStep(r, ins, i - 1);
      if i > 1 { NeverUnknown(r, ins, i - 1); }
      if r[i - 1].state != DisableLinkOk && (Rank(r[i - 1].state) >= 0 || r[i - 1].state == Unknown) {
        SendsStep(r[i - 1].(time := ins[i - 1].time), ins[i - 1].rx);
        RegistersStep(r[i - 1].(time := ins[i - 1].time), ins[i - 1].rx);
      }
    }
  }

  // ----- the link partner -----

  /** The registers after the call that left complete ack init with this word. */
  predicate Partner(a: Info, word: Word) {
    a.regs.lp == Abilities(word) && a.regs.npRx == word.np && word.invalid == 0
  }

  lemma PartnerStep(a: Info, rx: Option<Word>, word: Word)
    requires Rank(a.state) >= 8 && Partner(a, word)
    ensures Rank(Step(a, rx).0.state) >= 8 ==> Partner(Step(a, rx).0, word)
  {
  }

  /**
   From complete ack to LINK_OK the registers of the link partner hold what was received in the call in which this
   attempt left complete ack init, and that word has no invalid bits.
   */
  lemma {:induction false} PartnerKnown(r: seq<Info>, ins: seq<Input>, i: nat) returns (j: nat)
    requires Run(r, ins) && Starts(r[0]) && i < |r| && Rank(r[i].state) >= 8
    ensures j < i && r[j].state == CompleteAckInit && Partner(r[i], Received(ins[j].rx))
    ensures forall n :: j < n <= i ==> Rank(r[n].state) >= 8
  {
    RankStep(r, ins, i);
    RunStep(r, ins, i - 1);
    if Rank(r[i - 1].state) >= 8 {
      j := PartnerKnown(r, ins, i - 1);
      PartnerStep(r[i - 1].(time := ins[i - 1].time), ins[i - 1].rx, Received(ins[j].rx));
    } else {
      j := i - 1;
    }
  }

  /** A call in the two states that wait for ACK. */
  lemma AckNext(a: Info, rx: Option<Word>)
    requires 5 <= Rank(a.state) <= 6
    ensures var b := Step(a, rx).0;
            && b.regs == a.regs && b.time == a.time && b.m == Update(a.m, rx)
            && (rx.Some? && rx.value.ack ==> b.state == CompleteAckInit)
            && (rx.Some? && !rx.value.ack && rx.value != ZERO ==> b.state == AckDetect)
  {
  }

  lemma LinkStep(a: Info, rx: Option<Word>)
    ensures Step(a, rx).0.regs.linkOk <==> a.regs.linkOk || a.state == LinkOk
    ensures a.state == LinkOk ==> Step(a, rx).0.regs.complete
    ensures Rank(a.state) == 10 ==> Step(a, rx).0.regs.complete == a.regs.complete
  {
    match a.state
    case Unknown =>
    case AnEnable =>
    case RestartInit =>
    case AbilityDetectInit =>
    case AckDetectInit => AckNext(a, rx);
    case AckDetect => AckNext(a, rx);
    case CompleteAckInit =>
    case CompleteAck =>
    case IdleDetect =>
    case _ =>
  }

  /** LINK_OK is reported by the call after the one that reached it, and mr_link_ok stays from then on. */
  lemma {:induction false} LinkReported(r: seq<Info>, ins: seq<Input>, i: nat)
    requires Run(r, ins) && Starts(r[0]) && i < |r|
    ensures r[i].regs.linkOk <==> r[0].regs.linkOk || exists n :: 0 <= n < i && r[n].state == LinkOk
  {
    if i > 0 {
      LinkReported(r, ins, i - 1);
      RunStep(r, ins, i - 1);
      LinkStep(r[i - 1].(time := ins[i - 1].time), ins[i - 1].rx);
    }
  }

  /** And so is mr_an_complete. */
  lemma CompleteReported(r: seq<Info>, ins: seq<Input>, i: nat)
    requires Run(r, ins) && Starts(r[0]) && 0 < i < |r| && r[i].state == LinkOk
    ensures r[i].regs.complete <==> r[i - 1].state == LinkOk
  {
    Sent(r, ins, i - 1);
    RankStep(r, ins, i);
    RunStep(r, ins, i - 1);
    LinkStep(r[i - 1].(time := ins[i - 1].time), ins[i - 1].rx);
  }

  // ----- what is returned -----

  /** A next page would follow, which is not implemented. */
  predicate WantsPage(a: Info) {
    a.regs.adv.np && a.regs.lp.np && (a.tx.np || a.regs.npRx)
  }

  /** When a call reports done, and when failure; the state is then left as it is. */
  lemma StatusIs(a: Info, rx: Option<Word>)
    requires a.time < ULONG && a.linkTime <= a.time
    ensures Step(a, rx).1 == Done <==> a.state == LinkOk || a.state == DisableLinkOk
    ensures Step(a, rx).1 == Failed <==>
            || (a.state == CompleteAckInit && Received(rx).invalid != 0)
            || (a.state == CompleteAck && WantsPage(a) && a.time > a.linkTime + LINK_TIMER
                && !(rx == Some(ZERO) && Sample(a, rx).m.ability))
    ensures Step(a, rx).1 == Failed || Step(a, rx).1 == Done ==> Step(a, rx).0.state == a.state
  {
  }

  /** When a call reports a running link timer. */
  lemma TimerIs(a: Info, rx: Option<Word>)
    requires a.time < ULONG && a.linkTime <= a.time
    ensures Step(a, rx).1 == TimerEnabled <==>
            || a.state == RestartInit || a.state == IdleDetectInit
            || (a.state == Restart && a.time <= a.linkTime + LINK_TIMER)
            || (a.state == CompleteAckInit && Received(rx).invalid == 0)
  {
  }

  /** An attempt is given up in these states, and there exactly if words of zero have been matched. */
  lemma StartsAgain(a: Info, rx: Option<Word>)
    requires 1 <= Rank(a.state) && a.time < ULONG
    ensures Step(a, rx).0.state == AnEnable <==>
            && a.state in {AckDetectInit, AckDetect, CompleteAck, IdleDetect}
            && rx == Some(ZERO) && Update(a.m, rx).ability
  {
    if 5 <= Rank(a.state) <= 6 { AckNext(a, rx); }
  }

  /** In a run three samples of zero are enough. */
  lemma ZeroStartsAgain(r: seq<Info>, ins: seq<Input>, i: nat)
    requires Run(r, ins) && Starts(r[0]) && 3 <= i < |ins|
    requires ins[i].rx == ins[i - 1].rx == ins[i - 2].rx == Some(ZERO) && Rank(r[i - 2].state) >= 1
    requires r[i].state in {AckDetectInit, AckDetect, CompleteAck, IdleDetect}
    ensures r[i + 1].state == AnEnable
  {
    RankStep(r, ins, i);
    RunStep(r, ins, i);
    RunLively(r, ins, i - 2);
    ZeroMatched(r, ins, i);
    StartsAgain(r[i].(time := ins[i].time), ins[i].rx);
  }

  lemma ZeroMatched(r: seq<Info>, ins: seq<Input>, i: nat)
    requires Run(r, ins) && Starts(r[0]) && 3 <= i < |ins|
    requires ins[i].rx == ins[i - 1].rx == ins[i - 2].rx == Some(ZERO)
    requires Rank(r[i - 2].state) >= 1 && Rank(r[i].state) >= 5 && Lively(r[i - 2].m)
    ensures Update(r[i].m, ins[i].rx).ability
  {
    RankStep(r, ins, i);
    SampleTaken(r, ins, i - 2);
    SampleTaken(r, ins, i - 1);
  }

  /** In a run a failure in complete ack means that both ends announced a next page. */
  lemma FailsOnPages(r: seq<Info>, ins: seq<Input>, i: nat)
    requires Run(r, ins) && Starts(r[0]) && i < |ins| && r[i].state == CompleteAck
    ensures WantsPage(r[i]) <==> r[0].regs.adv.np && r[i].regs.lp.np
  {
    Sent(r, ins, i);
  }

  // ----- a partner that answers -----

  /** The partner sends one word, with ACK from the start (acks) or once it is sent ACK. */
  function Answer(a: Info, base: Word, acks: bool): Word {
    base.(ack := acks || Rank(a.state) >= 6)
  }

  /** From call i on, with at most gap microseconds from one call to the next. */
  predicate Answered(r: seq<Info>, ins: seq<Input>, i: nat, base: Word, acks: bool, gap: nat)
    requires |r| == |ins| + 1
  {
    forall n :: i <= n < |ins| ==> AnsweredAt(r, ins, n, base, acks, gap)
  }

  predicate AnsweredAt(r: seq<Info>, ins: seq<Input>, n: nat, base: Word, acks: bool, gap: nat)
    requires |r| == |ins| + 1 && n < |ins|
  {
    ins[n].rx == Some(Answer(r[n], base, acks)) && ins[n].time <= r[n].time + gap
  }

  /** How late each state can be, when the restart timer was set at s. */
  predicate InTime(a: Info, s: nat, gap: nat) {
    var k := Rank(a.state);
    && 2 <= k && s <= a.time < ULONG
    && (k == 2 ==> a.linkTime == s && a.time <= s + LINK_TIMER)
    && (3 <= k <= 7 ==> a.time <= s + LINK_TIMER + (k - 2) * gap)
    && (k == 8 ==> s <= a.linkTime <= s + LINK_TIMER + 6 * gap && a.linkTime <= a.time <= a.linkTime + LINK_TIMER)
    && (k == 9 ==> a.time <= s + 2 * LINK_TIMER + 7 * gap)
    && (k == 10 ==>
          s <= a.linkTime <= s + 2 * LINK_TIMER + 8 * gap && a.linkTime <= a.time <= a.linkTime + LINK_TIMER)
  }

  /** How far the words have been matched; the counter cannot be ahead of the flag. */
  predicate Matching(a: Info, base: Word, acks: bool) {
    var k, word := Rank(a.state), base.(ack := acks);
    && (a.m.ability || a.m.cnt <= 1)
    && (3 <= k <= 4 ==> a.m.cfg == word) && (k == 4 ==> a.m.ability || a.m.cnt == 1)
  }

  /** A word with abilities and without invalid bits. */
  predicate Valid(base: Word) {
    base.invalid == 0 && Abilities(base) != ZERO
  }

  ghost predicate Going(a: Info, base: Word, acks: bool, s: nat, gap: nat) {
    && InTime(a, s, gap) && Matching(a, base, acks)
    && (Rank(a.state) >= 8 ==> a.regs.lp == Abilities(base) && a.regs.npRx == base.np)
  }

  /** A call while the restart timer runs. */
  lemma WaitNext(a: Info, rx: Option<Word>)
    requires a.state == Restart && a.linkTime <= a.time < ULONG
    ensures var b := Step(a, rx).0;
            && b.m == Update(a.m, rx) && b.time == a.time && b.linkTime == a.linkTime
            && b.state == if a.time > a.linkTime + LINK_TIMER then AbilityDetectInit else Restart
  {
  }

  lemma WordMatched(m: Match, word: Word)
    ensures Update(m, Some(word)).cfg == word
  {
  }

  lemma GoesOnWaiting(a: Info, base: Word, acks: bool, s: nat, gap: nat, time: nat)
    requires Going(a, base, acks, s, gap) && Valid(base) && a.state == Restart
    requires a.time <= time <= a.time + gap && time < ULONG
    ensures Going(Step(a.(time := time), Some(Answer(a, base, acks))).0, base, acks, s, gap)
  {
    var word := Answer(a, base, acks);
    WaitNext(a.(time := time), Some(word));
    MatchGoesOn(a.m, word);
    WordMatched(a.m, word);
  }

  lemma GoesOnDetect(a: Info, base: Word, acks: bool, s: nat, gap: nat, time: nat)
    requires Going(a, base, acks, s, gap) && Valid(base) && 3 <= Rank(a.state) <= 4
    requires a.time <= time <= a.time + gap && time < ULONG
    ensures Going(Step(a.(time := time), Some(Answer(a, base, acks))).0, base, acks, s, gap)
  {
  }

  lemma GoesOnAck(a: Info, base: Word, acks: bool, s: nat, gap: nat, time: nat)
    requires Going(a, base, acks, s, gap) && Valid(base) && 5 <= Rank(a.state) <= 6
    requires a.time <= time <= a.time + gap && time < ULONG
    ensures Going(Step(a.(time := time), Some(Answer(a, base, acks))).0, base, acks, s, gap)
  {
    var word := Answer(a, base, acks);
    assert word != ZERO by { assert Abilities(word) == Abilities(base); }
    AckNext(a.(time := time), Some(word));
    MatchGoesOn(a.m, word);
  }

  lemma MatchGoesOn(m: Match, word: Word)
    requires m.ability || m.cnt <= 1
    ensures var m' := Update(m, Some(word)); m'.ability || m'.cnt <= 1
  {
  }

  lemma GoesOnStore(a: Info, base: Word, acks: bool, s: nat, gap: nat, time: nat)
    requires Going(a, base, acks, s, gap) && Valid(base) && a.state == CompleteAckInit
    requires a.time <= time <= a.time + gap && time < ULONG
    ensures Going(Step(a.(time := time), Some(Answer(a, base, acks))).0, base, acks, s, gap)
  {
    var word := Answer(a, base, acks);
    assert Abilities(word) == Abilities(base) && word.np == base.np && word.invalid == 0;
    MatchGoesOn(a.m, word);
  }

  lemma GoesOnComplete(a: Info, base: Word, acks: bool, s: nat, gap: nat, time: nat)
    requires Going(a, base, acks, s, gap) && Valid(base) && a.state == CompleteAck
    requires Sends(a) && !(a.regs.adv.np && base.np)
    requires a.time <= time <= a.time + gap && time < ULONG
    ensures Going(Step(a.(time := time), Some(Answer(a, base, acks))).0, base, acks, s, gap)
  {
    var word := Answer(a, base, acks);
    assert word != ZERO by { assert Abilities(word) == Abilities(base); }
    MatchGoesOn(a.m, word);
  }

  lemma GoesOnSilence(a: Info, base: Word, acks: bool, s: nat, gap: nat, time: nat)
    requires Going(a, base, acks, s, gap) && Valid(base) && a.state == IdleDetectInit
    requires a.time <= time <= a.time + gap && time < ULONG
    ensures Going(Step(a.(time := time), Some(Answer(a, base, acks))).0, base, acks, s, gap)
  {
    MatchGoesOn(a.m, Answer(a, base, acks));
  }

  lemma GoesOnIdle(a: Info, base: Word, acks: bool, s: nat, gap: nat, time: nat)
    requires Going(a, base, acks, s, gap) && Valid(base) && a.state == IdleDetect
    requires a.time <= time <= a.time + gap && time < ULONG
    ensures Going(Step(a.(time := time), Some(Answer(a, base, acks))).0, base, acks, s, gap)
  {
    var word := Answer(a, base, acks);
    assert word != ZERO by { assert Abilities(word) == Abilities(base); }
    MatchGoesOn(a.m, word);
  }

  lemma GoesOnLinked(a: Info, base: Word, acks: bool, s: nat, gap: nat, time: nat)
    requires Going(a, base, acks, s, gap) && Valid(base) && a.state == LinkOk
    requires a.time <= time <= a.time + gap && time < ULONG
    ensures Going(Step(a.(time := time), Some(Answer(a, base, acks))).0, base, acks, s, gap)
  {
    MatchGoesOn(a.m, Answer(a, base, acks));
  }

  lemma GoesOn(a: Info, base: Word, acks: bool, s: nat, gap: nat, time: nat)
    requires Going(a, base, acks, s, gap) && Valid(base) && Sends(a) && !(a.regs.adv.np && base.np)
    requires a.time <= time <= a.time + gap && time < ULONG
    ensures Going(Step(a.(time := time), Some(Answer(a, base, acks))).0, base, acks, s, gap)
  {
    match a.state
    case CompleteAckInit => GoesOnStore(a, base, acks, s, gap, time);
    case CompleteAck => GoesOnComplete(a, base, acks, s, gap, time);
    case IdleDetectInit => GoesOnSilence(a, base, acks, s, gap, time);
    case IdleDetect => GoesOnIdle(a, base, acks, s, gap, time);
    case LinkOk => GoesOnLinked(a, base, acks, s, gap, time);
    case _ =>
      if a.state == Restart {
        GoesOnWaiting(a, base, acks, s, gap, time);
      } else if Rank(a.state) <= 4 {
        GoesOnDetect(a, base, acks, s, gap, time);
      } else {
        GoesOnAck(a, base, acks, s, gap, time);
      }
  }

  /** The call that restarts the attempt. */
  lemma GoesOnRestart(a: Info, base: Word, acks: bool, gap: nat, rx: Option<Word>)
    requires a.state == RestartInit && a.time < ULONG && (a.m.ability || a.m.cnt <= 1)
    ensures Going(Step(a, rx).0, base, acks, a.time, gap)
  {
  }

  /** At the start of an attempt nothing has been matched. */
  lemma RestartsFresh(r: seq<Info>, ins: seq<Input>, i: nat)
    requires Run(r, ins) && Starts(r[0]) && i < |r| && r[i].state == RestartInit
    ensures i > 0 && r[i].m == NO_MATCH
  {
    RunStep(r, ins, i - 1);
    if i > 1 { NeverUnknown(r, ins, i - 1); }
  }

  lemma {:induction false} KeepsGoing(r: seq<Info>, ins: seq<Input>, i: nat, n: nat, base: Word, acks: bool, gap: nat)
    requires Run(r, ins) && Starts(r[0]) && i < n < |r| && r[i].state == RestartInit
    requires Answered(r, ins, i, base, acks, gap) && Valid(base) && !(r[0].regs.adv.np && base.np)
    ensures Going(r[n], base, acks, ins[i].time, gap)
  {
    RunStep(r, ins, n - 1);
    Sent(r, ins, n - 1);
    if n == i + 1 {
      RestartsFresh(r, ins, i);
      GoesOnRestart(r[i].(time := ins[i].time), base, acks, gap, ins[i].rx);
    } else {
      KeepsGoing(r, ins, i, n - 1, base, acks, gap);
      assert AnsweredAt(r, ins, n - 1, base, acks, gap);
      GoesOn(r[n - 1], base, acks, ins[i].time, gap, ins[n - 1].time);
    }
  }

  /**
   With a partner that keeps sending one valid word, and ACK at the latest when it is sent ACK, the attempt is never
   given up, and LINK_OK is reached within three link timers and eight calls, with the partner's abilities stored.
   */
  lemma AnsweredLinks(r: seq<Info>, ins: seq<Input>, i: nat, n: nat, base: Word, acks: bool, gap: nat)
    requires Run(r, ins) && Starts(r[0]) && i < n < |r| && r[i].state == RestartInit
    requires Answered(r, ins, i, base, acks, gap) && Valid(base) && !(r[0].regs.adv.np && base.np)
    ensures Rank(r[n].state) >= 2
    ensures r[n].time > ins[i].time + 36000 + 8 * gap ==> r[n].state == LinkOk
    ensures r[n].state == LinkOk ==> r[n].regs.lp == Abilities(base)
  {
    KeepsGoing(r, ins, i, n, base, acks, gap);
  }

  // ----- when ability detect is left -----

  /** The last three samples up to call i are one word other than zero. */
  predicate Thrice(ins: seq<Input>, i: nat)
    requires i < |ins|
  {
    i >= 2 && ins[i].rx == ins[i - 1].rx == ins[i - 2].rx && ins[i].rx.Some? && ins[i].rx.value != ZERO
  }

  predicate Lively(m: Match) {
    m.ability || m.cnt <= 1
  }

  lemma {:induction false} RunLively(r: seq<Info>, ins: seq<Input>, i: nat)
    requires Run(r, ins) && Starts(r[0]) && 1 <= i < |r| && r[i].state != DisableLinkOk
    ensures Lively(r[i].m)
  {
    FirstCall(r, ins);
    if i > 1 {
      RunStep(r, ins, i - 1);
      NeverUnknown(r, ins, i - 1);
      RunLively(r, ins, i - 1);
      MatchRun(r, ins, i - 1);
    }
  }

  lemma SampleTaken(r: seq<Info>, ins: seq<Input>, i: nat)
    requires Run(r, ins) && i < |ins| && Rank(r[i].state) >= 1
    ensures r[i + 1].m == Update(r[i].m, ins[i].rx)
  {
    RunStep(r, ins, i);
  }

  /** The flags of the last sample. */
  lemma FlagsAre(r: seq<Info>, ins: seq<Input>, i: nat)
    requires Run(r, ins) && i < |ins| && Rank(r[i].state) >= 1
    ensures r[i + 1].m.idle <==> ins[i].rx.None?
    ensures r[i + 1].m.ack <==> ins[i].rx.Some? && ins[i].rx.value.ack
    ensures r[i + 1].rx == Received(ins[i].rx)
  {
    SampleTaken(r, ins, i);
    RunStep(r, ins, i);
  }

  /** It is left in exactly the calls that end three such samples. */
  lemma DetectsThrice(r: seq<Info>, ins: seq<Input>, i: nat)
    requires Run(r, ins) && Starts(r[0]) && i < |ins| && r[i].state == AbilityDetect
    ensures r[i + 1].state == if Thrice(ins, i) then AckDetectInit else AbilityDetect
  {
    RunStep(r, ins, i);
    if r[i + 1].state != AbilityDetect { ThreeEqualWords(r, ins, i); }
    if Thrice(ins, i) {
      RankStep(r, ins, i);
      RankStep(r, ins, i - 1);
      RunLively(r, ins, i - 2);
      SampleTaken(r, ins, i - 2);
      SampleTaken(r, ins, i - 1);
    }
  }
}
