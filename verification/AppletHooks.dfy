/** services/applet.c, the hook chain.  The newest registration lives in the global
    head node; registering moves the head's old contents into the caller's cookie,
    so each cookie stores the callback registered just before its own, and the
    cookie of the oldest one stores the NULL that ends the chain. */
module AppletHooks {

  datatype Callback = Null | Fn(id: nat)

  class Node {
    var next: Node?
    var callback: Callback
    var param: int

    constructor (next: Node?, callback: Callback, param: int)
      ensures this.next == next && this.callback == callback && this.param == param
    {
      this.next, this.callback, this.param := next, callback, param;
    }
  }

  /** A registration as the client sees it. */
  datatype Registration = Registration(cookie: Node, callback: Callback, param: int)

  datatype Call = Call(callback: Callback, hookType: int, param: int)

  // ---------------------------------------------------------------- specification

  /** The registrations without the one made with `cookie`. */
  ghost function Without(hooks: seq<Registration>, cookie: Node): seq<Registration> {
    if hooks == [] then []
    else if hooks[0].cookie == cookie then hooks[1..]
    else [hooks[0]] + Without(hooks[1..], cookie)
  }

  ghost predicate Distinct(hooks: seq<Registration>) {
    forall i, j :: 0 <= i < j < |hooks| ==> hooks[i].cookie != hooks[j].cookie
  }

  lemma {:induction false} WithoutAt(hooks: seq<Registration>, i: nat)
    requires Distinct(hooks) && i < |hooks|
    ensures Without(hooks, hooks[i].cookie) == hooks[..i] + hooks[i + 1..]
  {
    if i > 0 {
      WithoutAt(hooks[1..], i - 1);
      assert hooks[1..][..i - 1] == hooks[1..i] && hooks[1..][i..] == hooks[i + 1..];
      assert [hooks[0]] + hooks[1..i] == hooks[..i];
    }
  }

  lemma {:induction false} WithoutAbsent(hooks: seq<Registration>, cookie: Node)
    requires forall i :: 0 <= i < |hooks| ==> hooks[i].cookie != cookie
    ensures Without(hooks, cookie) == hooks
  {
    if hooks != [] {
      WithoutAbsent(hooks[1..], cookie);
    }
  }

  // ---------------------------------------------------------------- the chain

  class Applet {
    const first: Node                     // g_appletFirstHook
    ghost var hooks: seq<Registration>    // the registrations, newest first
    ghost var nodes: seq<Node>            // the chain: the head, then each registration's cookie

    constructor ()
      ensures Valid() && hooks == [] && fresh(nodes)
    {
      var head := new Node(null, Null, 0);
      first := head;
      hooks, nodes := [], [head];
    }

    ghost predicate Valid()
      reads this, nodes
    {
      && |nodes| == |hooks| + 1 && nodes[0] == first
      && (forall i :: 0 <= i < |hooks| ==> hooks[i].cookie == nodes[i + 1] && hooks[i].callback != Null)
      && (forall i, j :: 0 <= i < j < |nodes| ==> nodes[i] != nodes[j])
      && (forall i :: 0 <= i < |hooks| ==> Stores(nodes[i], nodes[i + 1], hooks[i]))
      && nodes[|hooks|].next == null && nodes[|hooks|].callback == Null
    }

    /** A node holds the payload of a registration, and the link to its cookie. */
    static ghost predicate Stores(n: Node, cookie: Node, h: Registration)
      reads n
    {
      n.next == cookie && n.callback == h.callback && n.param == h.param
    }

    /** appletHook: a cookie is registered at most once at a time. */
    method Hook(cookie: Node, callback: Callback, param: int)
      requires Valid() && cookie !in nodes
      modifies this, first, cookie
      ensures Valid()
      ensures hooks == if callback == Null then old(hooks) else [Registration(cookie, callback, param)] + old(hooks)
      ensures nodes == if callback == Null then old(nodes) else [first, cookie] + old(nodes)[1..]
    {
      if callback == Null {
        return;
      }
      var hook := first;
      cookie.next, cookie.callback, cookie.param := hook.next, hook.callback, hook.param;
      hook.next := cookie;
      hook.callback := callback;
      hook.param := param;
      hooks := [Registration(cookie, callback, param)] + hooks;
      nodes := [first, cookie] + nodes[1..];
    }

    /** *hook = *cookie, for a node and its successor: their two registrations
        become one. */
    method CopyOver(hook: Node, cookie: Node, ghost i: nat)
      requires Valid() && i < |hooks| && hook == nodes[i] && cookie == nodes[i + 1]
      modifies this, hook
      ensures Valid()
      ensures hooks == old(hooks)[..i] + old(hooks)[i + 1..]
    {
      ghost var h, n := hooks, nodes;
      assert i + 1 < |h| ==> Stores(n[i + 1], n[i + 2], h[i + 1]);
      hook.next, hook.callback, hook.param := cookie.next, cookie.callback, cookie.param;
      forall j | 0 <= j < |h| && j != i ensures Stores(n[j], n[j + 1], h[j]) && n[j] != hook {
        assert old(Stores(n[j], n[j + 1], h[j]));
      }
      hooks := h[..i] + h[i + 1..];
      nodes := n[..i + 1] + n[i + 2..];
      forall j | 0 <= j < |hooks| ensures Stores(nodes[j], nodes[j + 1], hooks[j]) {
        assert j < i ==> Stores(n[j], n[j + 1], h[j]);
        assert j > i ==> Stores(n[j + 1], n[j + 2], h[j + 1]);
      }
    }

    /** appletUnhook: a cookie that is not registered is ignored. */
    method Unhook(cookie: Node)
      requires Valid()
      modifies this, nodes
      ensures Valid()
      ensures hooks == Without(old(hooks), cookie)
    {
      var hook: Node? := first;
      ghost var i := 0;
      while hook != null
        invariant 0 <= i <= |nodes| && hook == if i < |nodes| then nodes[i] else null
        invariant forall j :: 0 <= j < i && j < |hooks| ==> hooks[j].cookie != cookie
        decreases |nodes| - i
      {
        if hook.next == cookie {
          WithoutAt(hooks, i);
          CopyOver(hook, cookie, i);
          return;
        }
        hook := hook.next;
        i := i + 1;
      }
      WithoutAbsent(hooks, cookie);
    }

    /** appletCallHook: the calls made, in order. */
    method CallHook(hookType: int) returns (calls: seq<Call>)
      requires Valid()
      ensures |calls| == |hooks|
      ensures forall i :: 0 <= i < |hooks| ==> calls[i] == Call(hooks[i].callback, hookType, hooks[i].param)
    {
      calls := [];
      var c: Node? := first;
      while c != null && c.callback != Null
        invariant |calls| <= |hooks| && c == nodes[|calls|]
        invariant forall i :: 0 <= i < |calls| ==> calls[i] == Call(hooks[i].callback, hookType, hooks[i].param)
        decreases |hooks| - |calls|
      {
        calls := calls + [Call(c.callback, hookType, c.param)];
        c := c.next;
      }
      assert |calls| < |hooks| ==> Stores(nodes[|calls|], nodes[|calls| + 1], hooks[|calls|]);
    }
  }

  // ---------------------------------------------------------------- histories

  datatype Op = Hooked(cookie: Node, callback: Callback, param: int) | Unhooked(cookie: Node)

  /** The registrations after a history, by the effect of appletHook and appletUnhook. */
  ghost function Replay(ops: seq<Op>): seq<Registration> {
    if ops == [] then []
    else
      var hooks := Replay(ops[..|ops| - 1]);
      match ops[|ops| - 1]
      case Hooked(cookie, callback, param) => if callback == Null then hooks else [Registration(cookie, callback, param)] + hooks
      case Unhooked(cookie) => Without(hooks, cookie)
  }

  /** Each cookie is registered at most once at a time. */
  ghost predicate Legal(ops: seq<Op>) {
    ops != [] ==>
      var before, op := ops[..|ops| - 1], ops[|ops| - 1];
      Legal(before) && (op.Hooked? ==> forall i :: 0 <= i < |Replay(before)| ==> Replay(before)[i].cookie != op.cookie)
  }

  /** Operation k registered a callback, and its cookie was never unhooked since. */
  ghost predicate Alive(ops: seq<Op>, k: nat)
    requires k < |ops|
  {
    ops[k].Hooked? && ops[k].callback != Null && forall j :: k < j < |ops| ==> ops[j] != Unhooked(ops[k].cookie)
  }

  ghost function Made(op: Op): Registration
    requires op.Hooked?
  {
    Registration(op.cookie, op.callback, op.param)
  }

  /** The live registrations among the first k operations, the latest first. */
  ghost function Survivors(ops: seq<Op>, k: nat): (hooks: seq<Registration>)
    requires k <= |ops|
  {
    if k == 0 then []
    else if Alive(ops, k - 1) then [Made(ops[k - 1])] + Survivors(ops, k - 1)
    else Survivors(ops, k - 1)
  }

  /** All registrations made with other cookies. */
  ghost function Others(hooks: seq<Registration>, cookie: Node): seq<Registration> {
    if hooks == [] then []
    else if hooks[0].cookie == cookie then Others(hooks[1..], cookie)
    else [hooks[0]] + Others(hooks[1..], cookie)
  }

  /** With distinct cookies, removing the first match removes them all. */
  lemma {:induction false} WithoutIsOthers(hooks: seq<Registration>, cookie: Node)
    requires Distinct(hooks)
    ensures Without(hooks, cookie) == Others(hooks, cookie)
  {
    if hooks != [] {
      if hooks[0].cookie == cookie {
        WithoutAbsent(hooks[1..], cookie);
      }
      WithoutIsOthers(hooks[1..], cookie);
    }
  }

  lemma AliveExtend(ops: seq<Op>, op: Op, k: nat)
    requires k < |ops|
    ensures Alive(ops + [op], k) <==> Alive(ops, k) && op != Unhooked(ops[k].cookie)
  {
    var now := ops + [op];
    assert now[|ops|] == op;
    assert forall j :: 0 <= j < |ops| ==> ops[j] == now[j];
  }

  lemma {:induction false} SurvivorsUnhook(ops: seq<Op>, cookie: Node, k: nat)
    requires k <= |ops|
    ensures Survivors(ops + [Unhooked(cookie)], k) == Others(Survivors(ops, k), cookie)
  {
    if k > 0 {
      SurvivorsUnhook(ops, cookie, k - 1);
      AliveExtend(ops, Unhooked(cookie), k - 1);
    }
  }

  lemma {:induction false} SurvivorsHook(ops: seq<Op>, op: Op, k: nat)
    requires k <= |ops| && op.Hooked?
    ensures Survivors(ops + [op], k) == Survivors(ops, k)
  {
    if k > 0 {
      SurvivorsHook(ops, op, k - 1);
      AliveExtend(ops, op, k - 1);
    }
  }

  lemma WithoutDistinct(hooks: seq<Registration>, cookie: Node)
    requires Distinct(hooks)
    ensures Distinct(Without(hooks, cookie))
  {
    if i :| 0 <= i < |hooks| && hooks[i].cookie == cookie {
      WithoutAt(hooks, i);
    } else {
      WithoutAbsent(hooks, cookie);
    }
  }

  lemma {:induction false} ReplayDistinct(ops: seq<Op>)
    requires Legal(ops)
    ensures Distinct(Replay(ops))
  {
    if ops != [] {
      var before, op := ops[..|ops| - 1], ops[|ops| - 1];
      ReplayDistinct(before);
      if op.Unhooked? {
        WithoutDistinct(Replay(before), op.cookie);
      }
    }
  }

  /** After any legal history the chain holds exactly the registrations that were not
      unhooked since, newest first: an unhook takes out precisely the callback that
      was registered with its cookie. */
  lemma {:induction false} ReplayIsSurvivors(ops: seq<Op>)
    requires Legal(ops)
    ensures Replay(ops) == Survivors(ops, |ops|)
  {
    if ops != [] {
      var before, op := ops[..|ops| - 1], ops[|ops| - 1];
      assert ops == before + [op];
      ReplayIsSurvivors(before);
      match op {
        case Hooked(_, _, _) =>
          SurvivorsHook(before, op, |before|);
        case Unhooked(cookie) =>
          ReplayDistinct(before);
          WithoutIsOthers(Replay(before), cookie);
          SurvivorsUnhook(before, cookie, |before|);
      }
    }
  }
}
