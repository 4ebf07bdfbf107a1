/** Who owns the pooled buffers while the forwarding loops interleave. A loop body is
  * a program over local buffer variables; the pool hands out free or new buffers. */
module Ownership {
  import opened Words

  type Var = nat
  type Buf = nat
  type Thread = nat

  /** A loop body. Touch stands for any read or write of a buffer, Either for a test
    * whose outcome is not modelled, and Next for the end of an iteration. */
  datatype Code =
    | Next
    | Get(v: Var, rest: Code)
    | Put(v: Var, rest: Code)
    | Touch(v: Var, rest: Code)
    | Either(left: Code, right: Code)

  /** On every path, each variable is filled before it is touched, and put back
    * exactly once, after its last use. */
  predicate Disciplined(c: Code, owned: set<Var>) {
    match c
    case Next => owned == {}
    case Get(v, rest) => v !in owned && Disciplined(rest, owned + {v})
    case Put(v, rest) => v in owned && Disciplined(rest, owned - {v})
    case Touch(v, rest) => v in owned && Disciplined(rest, owned)
    case Either(left, right) => Disciplined(left, owned) && Disciplined(right, owned)
  }

  // The loops of the server, the client and the daemon. 0 is buf, 1 is respBuf.

  const PUT_BACK: Code := Put(0, Next)

  /** The loop gives up here, or goes on with c. */
  function OrPutBack(c: Code): Code {
    Either(PUT_BACK, c)
  }

  const WRITE_OR_NOT: Code := Either(Touch(0, PUT_BACK), PUT_BACK)

  /** TUN to network: read, encrypt, send. */
  const EGRESS: Code := Get(0, Touch(0, OrPutBack(SEAL_AND_SEND)))
  const SEAL_AND_SEND: Code := Touch(0, OrPutBack(Touch(0, PUT_BACK)))

  /** Network to TUN, on the client and the daemon: receive, strip, check the index,
    * decrypt, write. */
  const CLIENT_INGRESS: Code := Get(0, Touch(0, OrPutBack(STRIP_AND_OPEN)))
  const STRIP_AND_OPEN: Code := Touch(0, OrPutBack(OrPutBack(OPEN_AND_WRITE)))
  const OPEN_AND_WRITE: Code := Touch(0, OrPutBack(WRITE_OR_NOT))

  const KEEPALIVE: Code := Get(0, Touch(0, Touch(0, PUT_BACK)))

  /** Network to the server's dispatch step, which puts its buffer back on every
    * return. A dispatched packet may be an initiation or, as on the client, a tunnel
    * packet, whose index names one of many sessions. */
  const SERVER_INGRESS: Code := Get(0, Touch(0, OrPutBack(Either(ANSWER, STRIP_AND_OPEN))))
  const ANSWER: Code := Touch(0, OrPutBack(OrPutBack(REPLY)))
  const REPLY: Code := Get(1, Touch(1, Touch(1, Put(1, PUT_BACK))))

  /** The daemon's handshake exchange. */
  const DAEMON_HANDSHAKE: Code := Get(0, Touch(0, Touch(0, Put(0, AWAIT_RESPONSE))))
  const AWAIT_RESPONSE: Code := Get(1, Touch(1, Either(Put(1, Next), Touch(1, Put(1, Next)))))

  datatype Call = Gets(v: Var) | Puts(v: Var) | Uses(v: Var)

  /** The calls of an iteration in which nothing goes wrong. */
  function GoingOn(c: Code): seq<Call> {
    match c
    case Next => []
    case Get(v, rest) => [Gets(v)] + GoingOn(rest)
    case Put(v, rest) => [Puts(v)] + GoingOn(rest)
    case Touch(v, rest) => [Uses(v)] + GoingOn(rest)
    case Either(_, right) => GoingOn(right)
  }

  /** The number of ways through an iteration. */
  function Paths(c: Code): nat {
    match c
    case Next => 1
    case Get(_, rest) => Paths(rest)
    case Put(_, rest) => Paths(rest)
    case Touch(_, rest) => Paths(rest)
    case Either(left, right) => Paths(left) + Paths(right)
  }

  /** The loops, spelled out: what an iteration calls when nothing goes wrong and there is
    * nothing to write to a TUN device, and how many ways there are through it. */
  lemma LoopsAre()
    ensures GoingOn(EGRESS) == [Gets(0), Uses(0), Uses(0), Uses(0), Puts(0)] && Paths(EGRESS) == 3
    ensures GoingOn(KEEPALIVE) == [Gets(0), Uses(0), Uses(0), Puts(0)] && Paths(KEEPALIVE) == 1
    ensures GoingOn(CLIENT_INGRESS) == [Gets(0), Uses(0), Uses(0), Uses(0), Puts(0)] && Paths(CLIENT_INGRESS) == 6
    ensures GoingOn(ANSWER) == [Uses(0), Gets(1), Uses(1), Uses(1), Puts(1), Puts(0)] && Paths(ANSWER) == 3
    ensures Paths(SERVER_INGRESS) == 9
    ensures GoingOn(DAEMON_HANDSHAKE) == [Gets(0), Uses(0), Uses(0), Puts(0), Gets(1), Uses(1), Uses(1), Puts(1)]
    ensures Paths(DAEMON_HANDSHAKE) == 2
  {
    assert GoingOn(PUT_BACK) == [Puts(0)] && Paths(PUT_BACK) == 1;
    assert GoingOn(SEAL_AND_SEND) == [Uses(0), Uses(0), Puts(0)] && Paths(SEAL_AND_SEND) == 2;
    assert GoingOn(WRITE_OR_NOT) == [Puts(0)] && Paths(WRITE_OR_NOT) == 2;
    assert GoingOn(OPEN_AND_WRITE) == [Uses(0), Puts(0)] && Paths(OPEN_AND_WRITE) == 3;
    assert GoingOn(STRIP_AND_OPEN) == [Uses(0), Uses(0), Puts(0)] && Paths(STRIP_AND_OPEN) == 5;
    assert GoingOn(REPLY) == [Gets(1), Uses(1), Uses(1), Puts(1), Puts(0)] && Paths(REPLY) == 1;
    assert GoingOn(AWAIT_RESPONSE) == [Gets(1), Uses(1), Uses(1), Puts(1)] && Paths(AWAIT_RESPONSE) == 2;
  }

  predicate IsLoop(c: Code) {
    c == EGRESS || c == CLIENT_INGRESS || c == KEEPALIVE || c == SERVER_INGRESS || c == DAEMON_HANDSHAKE
  }

  lemma TunnelStepsAreDisciplined()
    ensures Disciplined(PUT_BACK, {0}) && Disciplined(SEAL_AND_SEND, {0}) && Disciplined(STRIP_AND_OPEN, {0})
  {
    var buf: set<Var> := {0};
    assert buf - {0} == {};
    assert Disciplined(PUT_BACK, buf);
    assert Disciplined(WRITE_OR_NOT, buf);
    assert Disciplined(OPEN_AND_WRITE, buf);
  }

  lemma ReplyIsDisciplined()
    ensures Disciplined(ANSWER, {0})
  {
    var buf, both: set<Var> := {0}, {0, 1};
    assert buf + {1} == both && both - {1} == buf;
    TunnelStepsAreDisciplined();
    assert Disciplined(Put(1, PUT_BACK), both);
    assert Disciplined(REPLY, buf);
  }

  lemma AwaitIsDisciplined()
    ensures Disciplined(AWAIT_RESPONSE, {})
  {
    var none, resp: set<Var> := {}, {1};
    assert none + {1} == resp && resp - {1} == none;
    assert Disciplined(Put(1, Next), resp);
  }

  lemma LoopsAreDisciplined(c: Code)
    requires IsLoop(c)
    ensures Disciplined(c, {})
  {
    var none, buf: set<Var> := {}, {0};
    assert none + {0} == buf && buf - {0} == none;
    TunnelStepsAreDisciplined();
    ReplyIsDisciplined();
    AwaitIsDisciplined();
    hide PUT_BACK, SEAL_AND_SEND, STRIP_AND_OPEN, ANSWER, AWAIT_RESPONSE;
    assert Disciplined(OrPutBack(Either(ANSWER, STRIP_AND_OPEN)), buf);
    assert Disciplined(Put(0, AWAIT_RESPONSE), buf);
  }

  // Execution.

  /** What remains of a thread's iteration, and its buffer variables. */
  datatype Local = Local(code: Code, vars: map<Var, Buf>)

  datatype State = State(
    loops: map<Thread, Code>,      // each thread's loop body
    threads: map<Thread, Local>,
    free: set<Buf>,                // in the pool
    gone: set<Buf>,                // collected while in the pool
    made: nat)                     // buffers 0..made-1 exist or existed

  /** One step of thread t: reuse is the buffer that the pool hands out, if it has one
    * to hand out; left is the outcome of a test. Collect is the garbage collector
    * emptying part of the pool. */
  datatype Event = Step(t: Thread, reuse: Option<Buf>, left: bool) | Collect(b: Buf)

  function Init(loops: map<Thread, Code>): State {
    State(loops, map t <- loops :: Local(loops[t], map[]), {}, {}, 0)
  }

  function Do(s: State, e: Event): State {
    match e
    case Collect(b) => if b in s.free then s.(free := s.free - {b}, gone := s.gone + {b}) else s
    case Step(t, reuse, left) =>
      if t !in s.threads || t !in s.loops then s else
      var l := s.threads[t];
      match l.code
      case Next => s.(threads := s.threads[t := Local(s.loops[t], l.vars)])
      case Get(v, rest) =>
        if reuse.Some? && reuse.value in s.free then
          s.(threads := s.threads[t := Local(rest, l.vars[v := reuse.value])], free := s.free - {reuse.value})
        else
          s.(threads := s.threads[t := Local(rest, l.vars[v := s.made])], made := s.made + 1)
      case Put(v, rest) =>
        s.(threads := s.threads[t := Local(rest, l.vars - {v})],
           free := if v in l.vars then s.free + {l.vars[v]} else s.free)
      case Touch(v, rest) => s.(threads := s.threads[t := Local(rest, l.vars)])
      case Either(a, b) => s.(threads := s.threads[t := Local(if left then a else b, l.vars)])
  }

  function Run(loops: map<Thread, Code>, es: seq<Event>): State {
    if es == [] then Init(loops) else Do(Run(loops, es[..|es| - 1]), es[|es| - 1])
  }

  /** Thread t owns buffer b through variable v. */
  predicate Owns(s: State, t: Thread, v: Var, b: Buf) {
    t in s.threads && v in s.threads[t].vars && s.threads[t].vars[v] == b
  }

  /** Every buffer in use has one owner, through one variable, and is neither in the pool
    * nor collected; every thread owns exactly what its remaining code will put back. */
  ghost predicate Exclusive(s: State) {
    && (forall t <- s.threads :: t in s.loops && Disciplined(s.loops[t], {}))
    && (forall t <- s.threads :: Disciplined(s.threads[t].code, s.threads[t].vars.Keys))
    && (forall b <- s.free + s.gone :: b < s.made)
    && s.free !! s.gone
    && (forall t: Thread, v: Var, b: Buf | Owns(s, t, v, b) :: b < s.made && b !in s.free && b !in s.gone)
    && OneOwner(s)
  }

  ghost predicate OneOwner(s: State) {
    forall t: Thread, v: Var, t': Thread, v': Var, b: Buf | Owns(s, t, v, b) && Owns(s, t', v', b) ::
      t == t' && v == v'
  }

  lemma GetKeeps(s: State, t: Thread, reuse: Option<Buf>, left: bool)
    requires Exclusive(s) && t in s.threads && s.threads[t].code.Get?
    ensures Exclusive(Do(s, Step(t, reuse, left)))
  {
    var s' := Do(s, Step(t, reuse, left));
    var v, l, l' := s.threads[t].code.v, s.threads[t], s'.threads[t];
    assert l'.vars.Keys == l.vars.Keys + {v};
    assert forall t': Thread, v': Var :: !Owns(s, t', v', l'.vars[v]);
    forall t': Thread, v': Var, b: Buf | Owns(s', t', v', b)
      ensures Owns(s, t', v', b) || (t' == t && v' == v && b == l'.vars[v])
    {
    }
  }

  lemma PutKeeps(s: State, t: Thread, reuse: Option<Buf>, left: bool)
    requires Exclusive(s) && t in s.threads && s.threads[t].code.Put?
    ensures Exclusive(Do(s, Step(t, reuse, left)))
  {
    var s' := Do(s, Step(t, reuse, left));
    var v, l, l' := s.threads[t].code.v, s.threads[t], s'.threads[t];
    assert l'.vars.Keys == l.vars.Keys - {v};
    assert Owns(s, t, v, l.vars[v]);
    forall t': Thread, v': Var, b: Buf | Owns(s', t', v', b)
      ensures Owns(s, t', v', b) && b != l.vars[v]
    {
      assert Owns(s, t', v', b);
      assert b == l.vars[v] ==> t' == t && v' == v;
    }
  }

  lemma DoKeepsExclusive(s: State, e: Event)
    requires Exclusive(s)
    ensures Exclusive(Do(s, e))
  {
    if e.Step? && e.t in s.threads && s.threads[e.t].code.Get? {
      GetKeeps(s, e.t, e.reuse, e.left);
    } else if e.Step? && e.t in s.threads && s.threads[e.t].code.Put? {
      PutKeeps(s, e.t, e.reuse, e.left);
    } else {
      var s' := Do(s, e);
      forall t: Thread, v: Var, b: Buf ensures Owns(s', t, v, b) <==> Owns(s, t, v, b) {
      }
    }
  }

  lemma {:induction false} RunIsExclusive(loops: map<Thread, Code>, es: seq<Event>)
    requires forall t <- loops :: IsLoop(loops[t])
    ensures Exclusive(Run(loops, es))
  {
    if es == [] {
      forall t <- loops ensures Disciplined(loops[t], {}) {
        LoopsAreDisciplined(loops[t]);
      }
      assert forall t <- Init(loops).threads :: Init(loops).threads[t].vars.Keys == {};
    } else {
      RunIsExclusive(loops, es[..|es| - 1]);
      DoKeepsExclusive(Run(loops, es[..|es| - 1]), es[|es| - 1]);
    }
  }

  /** No buffer is lost: each is in the pool, collected, or with a thread. */
  ghost predicate Accounted(s: State) {
    forall b: Buf | b < s.made :: b in s.free || b in s.gone || Held(s, b)
  }

  ghost predicate Held(s: State, b: Buf) {
    exists t: Thread, v: Var :: Owns(s, t, v, b)
  }

  lemma StepKeepsHeld(s: State, t: Thread, reuse: Option<Buf>, left: bool, b: Buf)
    requires Exclusive(s) && Held(s, b)
    ensures var s' := Do(s, Step(t, reuse, left)); Held(s', b) || b in s'.free
  {
    var s' := Do(s, Step(t, reuse, left));
    var t', v' :| Owns(s, t', v', b);
    hide Exclusive, Disciplined;
    if !Owns(s', t', v', b) {
      assert t' == t && s.threads[t].code.Put?;
    }
  }

  /** The buffer that a Get hands out, when it is a new one. */
  lemma MadeIsHeld(s: State, t: Thread, reuse: Option<Buf>, left: bool)
    requires Do(s, Step(t, reuse, left)).made != s.made
    ensures Do(s, Step(t, reuse, left)).made == s.made + 1 && Held(Do(s, Step(t, reuse, left)), s.made)
  {
    assert Owns(Do(s, Step(t, reuse, left)), t, s.threads[t].code.v, s.made);
  }

  /** The buffer that a Get takes from the pool. */
  lemma TakenIsHeld(s: State, t: Thread, reuse: Option<Buf>, left: bool, b: Buf)
    requires b in s.free && b !in Do(s, Step(t, reuse, left)).free
    ensures Held(Do(s, Step(t, reuse, left)), b)
  {
    assert Owns(Do(s, Step(t, reuse, left)), t, s.threads[t].code.v, b);
  }

  lemma DoKeepsAccounted(s: State, e: Event)
    requires Exclusive(s) && Accounted(s)
    ensures Accounted(Do(s, e))
  {
    var s' := Do(s, e);
    forall b: Buf | b < s'.made ensures b in s'.free || b in s'.gone || Held(s', b) {
      if e.Step? && s'.made != s.made {
        MadeIsHeld(s, e.t, e.reuse, e.left);
      }
      hide Exclusive;
      if e.Step? && b < s.made {
        if b in s.free {
          if b !in s'.free {
            TakenIsHeld(s, e.t, e.reuse, e.left, b);
          }
        } else if b !in s.gone {
          StepKeepsHeld(s, e.t, e.reuse, e.left, b);
        }
      } else if e.Collect? && Held(s, b) {
        var t, v :| Owns(s, t, v, b);
        assert Owns(s', t, v, b);
      }
    }
  }

  lemma {:induction false} RunIsAccounted(loops: map<Thread, Code>, es: seq<Event>)
    requires forall t <- loops :: IsLoop(loops[t])
    ensures Accounted(Run(loops, es))
  {
    if es != [] {
      RunIsAccounted(loops, es[..|es| - 1]);
      RunIsExclusive(loops, es[..|es| - 1]);
      DoKeepsAccounted(Run(loops, es[..|es| - 1]), es[|es| - 1]);
    }
  }

  /** For any number of loops and every interleaving, a buffer that was made is in
    * exactly one place: the pool, the collector's hands, or one variable of one thread
    * that is in the middle of an iteration. */
  lemma BuffersAreOwned(loops: map<Thread, Code>, es: seq<Event>, b: Buf)
    requires forall t <- loops :: IsLoop(loops[t])
    requires b < Run(loops, es).made
    ensures var s := Run(loops, es);
            && (b in s.free || b in s.gone || Held(s, b))
            && !(b in s.free && b in s.gone)
            && (Held(s, b) ==> b !in s.free && b !in s.gone)
    ensures forall t: Thread, v: Var, t': Thread, v': Var | Owns(Run(loops, es), t, v, b) && Owns(Run(loops, es), t', v', b) ::
              t == t' && v == v'
    ensures forall t: Thread, v: Var | Owns(Run(loops, es), t, v, b) :: !Run(loops, es).threads[t].code.Next?
  {
    RunIsExclusive(loops, es);
    RunIsAccounted(loops, es);
  }

  /** So once every loop is between iterations, everything was put back. */
  lemma NothingIsLost(loops: map<Thread, Code>, es: seq<Event>)
    requires forall t <- loops :: IsLoop(loops[t])
    requires forall t <- Run(loops, es).threads :: Run(loops, es).threads[t].code.Next?
    ensures forall b: Buf | b < Run(loops, es).made :: b in Run(loops, es).free + Run(loops, es).gone
  {
    forall b: Buf | b < Run(loops, es).made ensures b in Run(loops, es).free + Run(loops, es).gone {
      BuffersAreOwned(loops, es, b);
    }
  }

  lemma TouchedIsOwned(loops: map<Thread, Code>, es: seq<Event>, t: Thread)
    requires forall t' <- loops :: IsLoop(loops[t'])
    requires t in Run(loops, es).threads
    ensures var l := Run(loops, es).threads[t];
            (l.code.Touch? || l.code.Put?) ==> l.code.v in l.vars && l.vars[l.code.v] !in Run(loops, es).free
  {
    RunIsExclusive(loops, es);
    var s := Run(loops, es);
    var l := s.threads[t];
    if l.code.Touch? || l.code.Put? {
      assert Owns(s, t, l.code.v, l.vars[l.code.v]);
    }
  }
}
