/**
 * The hero-subtitle typing effect, `type()`, of scripts/script.js, script.js and sacript.js.
 *
 * Each call shows a prefix of the current role and moves one step of a four-branch machine over
 * (roleIndex, charIndex, isDeleting), then arms one timer. The spec functions below describe one call
 * (TypeCall) and one timer firing (TimerFires); the class Typer is the imperative state the scripts keep
 * in module-level variables, and its methods are proved against those functions.
 */
module Typing {
  import opened Wrappers

  /** The roles of scripts/script.js and script.js (identical lists). */
  const SiteRoles: seq<string> := [
    "AI Engineering Lead",
    "AI Consultant",
    "Product Engineer",
    "Software Architect",
    "Transformational Leader & Mentor",
    "Tech Community Mentor"
  ]

  /** The roles of sacript.js. */
  const SacriptRoles: seq<string> := [
    "AI Engineering Lead",
    "Product Consultant",
    "Software Architect",
    "Tech Community Mentor"
  ]

  /** The three module-level counters that `type()` reads and updates. */
  datatype Anim = Anim(roleIndex: nat, charIndex: nat, isDeleting: bool)

  /** What the timer armed by the last call will run: `type` itself, or the arrow of the
      full-length branch that first sets `isDeleting` and then calls `type`. */
  datatype Callback = CallType | StartDeleting

  /** The animator between two firings: its counters and the armed timer. */
  datatype Animator = Animator(state: Anim, pending: Callback)

  /** The four branches of the if-chain in `type()`. */
  datatype Branch = TypeChar | PauseFull | DeleteChar | NextRole

  /** What one call produces: the text written, the new counters, the timer delay and its callback. */
  datatype Outcome = Outcome(shown: string, next: Anim, delay: nat, armed: Callback)

  /** One frame of the animation as a viewer sees it. */
  datatype Frame = Frame(text: string, delay: nat)

  /** The state the scripts start in: `roleIndex = 0, charIndex = 0, isDeleting = false`,
      with the first `type()` called directly. */
  const Start := Animator(Anim(0, 0, false), CallType)

  /** The counters are in range: a role exists and the cursor lies within it. */
  predicate WellFormed(roles: seq<string>, st: Anim)
  {
    st.roleIndex < |roles| && st.charIndex <= |roles[st.roleIndex]|
  }

  /** The guard of each branch, read in isolation. */
  predicate Guard(b: Branch, isDeleting: bool, charIndex: nat, len: nat)
  {
    match b
    case TypeChar => !isDeleting && charIndex < len
    case PauseFull => !isDeleting && charIndex == len
    case DeleteChar => isDeleting && charIndex > 0
    case NextRole => isDeleting && charIndex == 0
  }

  /** The branch the if-chain takes: the first guard that holds, or none. */
  function BranchOf(isDeleting: bool, charIndex: nat, len: nat): Option<Branch>
  {
    if !isDeleting && charIndex < len then Some(TypeChar)
    else if !isDeleting && charIndex == len then Some(PauseFull)
    else if isDeleting && charIndex > 0 then Some(DeleteChar)
    else if isDeleting && charIndex == 0 then Some(NextRole)
    else None
  }

  /** The delay each branch hands to `setTimeout`. */
  function Delay(b: Branch): nat
  {
    match b
    case TypeChar => 90
    case PauseFull => 1500
    case DeleteChar => 60
    case NextRole => 300
  }

  /** Exactly one branch fires when the cursor is within the role: no branch fires only when typing
      past the end, and the guards are disjoint, so the first true guard is the only true guard. */
  lemma ExactlyOneBranch(isDeleting: bool, charIndex: nat, len: nat)
    ensures BranchOf(isDeleting, charIndex, len).None? <==> !isDeleting && len < charIndex
    ensures forall b :: Guard(b, isDeleting, charIndex, len) <==> BranchOf(isDeleting, charIndex, len) == Some(b)
  {
  }

  /** One call of `type()`. */
  function TypeCall(roles: seq<string>, st: Anim): (r: Outcome)
    requires WellFormed(roles, st)
    ensures WellFormed(roles, r.next)
    ensures r.shown == roles[st.roleIndex][..st.charIndex]
    ensures r.next.roleIndex != st.roleIndex ==> st.isDeleting && st.charIndex == 0
    ensures r.next.isDeleting != st.isDeleting ==> st.isDeleting && st.charIndex == 0 && r.next.roleIndex == (st.roleIndex + 1) % |roles|
    ensures r.delay in {90, 1500, 60, 300}
    ensures r.armed == StartDeleting <==> !st.isDeleting && st.charIndex == |roles[st.roleIndex]|
  {
    var role := roles[st.roleIndex];
    var b := BranchOf(st.isDeleting, st.charIndex, |role|).value;
    var next :=
      match b
      case TypeChar => st.(charIndex := st.charIndex + 1)
      case PauseFull => st
      case DeleteChar => st.(charIndex := st.charIndex - 1)
      case NextRole => st.(isDeleting := false, roleIndex := (st.roleIndex + 1) % |roles|);
    Outcome(role[..st.charIndex], next, Delay(b), if b == PauseFull then StartDeleting else CallType)
  }

  /** The armed timer fires: the arrow of the full-length branch sets `isDeleting` before calling `type()`. */
  function TimerFires(roles: seq<string>, a: Animator): (r: Outcome)
    requires WellFormed(roles, a.state)
    ensures WellFormed(roles, r.next)
    ensures r.shown == roles[a.state.roleIndex][..a.state.charIndex]
  {
    TypeCall(roles, if a.pending == StartDeleting then a.state.(isDeleting := true) else a.state)
  }

  /** The animator after `k` firings. */
  function Run(roles: seq<string>, a: Animator, k: nat): (r: Animator)
    requires WellFormed(roles, a.state)
    ensures WellFormed(roles, r.state)
    decreases k
  {
    if k == 0 then a
    else
      var o := TimerFires(roles, a);
      Run(roles, Animator(o.next, o.armed), k - 1)
  }

  /** The frames shown by `k` firings. */
  function Trace(roles: seq<string>, a: Animator, k: nat): (r: seq<Frame>)
    requires WellFormed(roles, a.state)
    ensures |r| == k
    decreases k
  {
    if k == 0 then []
    else
      var o := TimerFires(roles, a);
      [Frame(o.shown, o.delay)] + Trace(roles, Animator(o.next, o.armed), k - 1)
  }

  /** Firing `j` times and then `k` times is firing `j + k` times. */
  lemma {:induction false} RunAdd(roles: seq<string>, a: Animator, j: nat, k: nat)
    requires WellFormed(roles, a.state)
    ensures Run(roles, a, j + k) == Run(roles, Run(roles, a, j), k)
    decreases j
  {
    if j > 0 {
      var o := TimerFires(roles, a);
      RunAdd(roles, Animator(o.next, o.armed), j - 1, k);
    }
  }

  /** While typing, each firing adds one character: `k` firings from cursor `c` reach `c + k`,
      and every frame on the way shows the role cut at the cursor. */
  lemma {:induction false} TypingPhase(roles: seq<string>, i: nat, c: nat, k: nat)
    requires i < |roles| && c + k <= |roles[i]|
    ensures Run(roles, Animator(Anim(i, c, false), CallType), k) == Animator(Anim(i, c + k, false), CallType)
    ensures forall n :: 0 <= n < k ==> Trace(roles, Animator(Anim(i, c, false), CallType), k)[n] == Frame(roles[i][..c + n], 90)
    decreases k
  {
    if k > 0 {
      TypingPhase(roles, i, c + 1, k - 1);
      var tail := Trace(roles, Animator(Anim(i, c + 1, false), CallType), k - 1);
      assert Trace(roles, Animator(Anim(i, c, false), CallType), k) == [Frame(roles[i][..c], 90)] + tail;
    }
  }

  /** While deleting, `c + 1` firings from cursor `c` remove the `c` characters and then switch to the
      next role, with the cursor at 0 and typing resumed; the frames shrink by one character every 60ms
      and the empty frame waits 300ms. */
  lemma {:induction false} DeletingPhase(roles: seq<string>, i: nat, c: nat)
    requires i < |roles| && c <= |roles[i]|
    ensures Run(roles, Animator(Anim(i, c, true), CallType), c + 1) == Animator(Anim((i + 1) % |roles|, 0, false), CallType)
    ensures var t := Trace(roles, Animator(Anim(i, c, true), CallType), c + 1);
      (forall n :: 0 <= n < c ==> t[n] == Frame(roles[i][..c - n], 60)) && t[c] == Frame("", 300)
    decreases c
  {
    var a := Animator(Anim(i, c, true), CallType);
    if c > 0 {
      DeleteStep(roles, i, c);
      DeletingPhase(roles, i, c - 1);
      var tail := Trace(roles, Animator(Anim(i, c - 1, true), CallType), c);
      assert Trace(roles, a, c + 1) == [Frame(roles[i][..c], 60)] + tail;
    } else {
      SwitchStep(roles, i);
      assert Trace(roles, a, 1) == [Frame("", 300)];
    }
  }

  /** One deleting firing with characters left: the role cut at the cursor is shown for 60ms and the
      cursor moves one to the left. */
  lemma DeleteStep(roles: seq<string>, i: nat, c: nat)
    requires i < |roles| && 0 < c <= |roles[i]|
    ensures TimerFires(roles, Animator(Anim(i, c, true), CallType)) == Outcome(roles[i][..c], Anim(i, c - 1, true), 60, CallType)
  {
  }

  /** The deleting firing at cursor 0 shows the empty text for 300ms and moves to the next role. */
  lemma SwitchStep(roles: seq<string>, i: nat)
    requires i < |roles|
    ensures TimerFires(roles, Animator(Anim(i, 0, true), CallType)) == Outcome("", Anim((i + 1) % |roles|, 0, false), 300, CallType)
  {
  }

  /** A whole role takes `2|R| + 2` firings: `|R|` typing, the pause at full length, the firing that
      starts deleting (showing the full role again), `|R| - 1` more deletions and the switch. */
  function CycleLength(role: string): nat
  {
    2 * |role| + 2
  }

  /** One full type-pause-delete-switch cycle starting at role `i` ends at role `(i + 1) % |roles|`,
      cursor 0, typing, with `type` armed. */
  lemma {:induction false} OneCycle(roles: seq<string>, i: nat)
    requires i < |roles|
    ensures Run(roles, Animator(Anim(i, 0, false), CallType), CycleLength(roles[i])) == Animator(Anim((i + 1) % |roles|, 0, false), CallType)
  {
    var len := |roles[i]|;
    var a0 := Animator(Anim(i, 0, false), CallType);
    var full := Animator(Anim(i, len, false), CallType);
    var paused := Animator(Anim(i, len, false), StartDeleting);
    var deleting := Animator(Anim(i, len, true), CallType);
    RunAdd(roles, a0, len, len + 2);
    TypingPhase(roles, i, 0, len);
    assert Run(roles, full, len + 2) == Run(roles, paused, len + 1);
    assert Run(roles, paused, len + 1) == Run(roles, deleting, len + 1);
    DeletingPhase(roles, i, len);
  }

  /** The number of firings for `k` consecutive roles starting at role `i`. */
  function CyclesLength(roles: seq<string>, i: nat, k: nat): nat
    requires i < |roles|
    decreases k
  {
    if k == 0 then 0 else CycleLength(roles[i]) + CyclesLength(roles, (i + 1) % |roles|, k - 1)
  }

  /** A positive multiple of a positive number is at least that number. */
  lemma {:induction false} MulAtLeast(a: nat, n: nat)
    requires a >= 1
    ensures a * n >= n
    decreases a
  {
    if a > 1 {
      MulAtLeast(a - 1, n);
      assert a * n == (a - 1) * n + n;
    }
  }

  /** The remainder is determined by any quotient-remainder decomposition. */
  lemma ModUnique(x: int, n: int, q: int, r: int)
    requires n > 0 && 0 <= r < n && x == q * n + r
    ensures x % n == r
  {
    var q', r' := x / n, x % n;
    assert (q - q') * n == r' - r;
    if q > q' {
      MulAtLeast(q - q', n);
    } else if q < q' {
      MulAtLeast(q' - q, n);
    }
  }

  /** Stepping one role past `i` and then `k - 1` more is stepping `k` past `i`, modulo the length. */
  lemma WrapStep(i: nat, k: nat, n: nat)
    requires i < n && 0 < k
    ensures ((i + 1) % n + (k - 1)) % n == (i + k) % n
  {
    if i + 1 == n {
      var q, r := (k - 1) / n, (k - 1) % n;
      assert i + k == (q + 1) * n + r;
      ModUnique(i + k, n, q + 1, r);
      assert n % n == 0;
    } else {
      assert (i + 1) % n == i + 1;
    }
  }

  /** The roles are visited in order and wrap around: after `k` complete cycles from role `i`
      the animator is at role `(i + k) % |roles|`, cursor 0, typing. */
  lemma {:induction false} RolesInOrder(roles: seq<string>, i: nat, k: nat)
    requires i < |roles|
    ensures Run(roles, Animator(Anim(i, 0, false), CallType), CyclesLength(roles, i, k)) == Animator(Anim((i + k) % |roles|, 0, false), CallType)
    decreases k
  {
    var a0 := Animator(Anim(i, 0, false), CallType);
    if k == 0 {
      assert i % |roles| == i;
    } else {
      var i' := (i + 1) % |roles|;
      RunAdd(roles, a0, CycleLength(roles[i]), CyclesLength(roles, i', k - 1));
      OneCycle(roles, i);
      RolesInOrder(roles, i', k - 1);
      WrapStep(i, k, |roles|);
    }
  }

  /** In sacript.js the four roles come in the order 0, 1, 2, 3 and then 0 again. */
  lemma SacriptRoleOrder(k: nat)
    ensures Run(SacriptRoles, Start, CyclesLength(SacriptRoles, 0, k)).state == Anim(k % 4, 0, false)
  {
    RolesInOrder(SacriptRoles, 0, k);
  }

  /** In scripts/script.js and script.js the six roles come in the order 0, 1, ..., 5 and then 0 again. */
  lemma SiteRoleOrder(k: nat)
    ensures Run(SiteRoles, Start, CyclesLength(SiteRoles, 0, k)).state == Anim(k % 6, 0, false)
  {
    RolesInOrder(SiteRoles, 0, k);
  }

  /** Typing role `R` from an empty cursor: after `|R|` firings the cursor is at `|R|`, the next firing
      shows `R` and arms the deleting arrow, and that arrow's firing shows `R` once more. */
  lemma {:induction false} FullRoleShownTwice(roles: seq<string>, i: nat)
    requires i < |roles|
    ensures var a := Run(roles, Animator(Anim(i, 0, false), CallType), |roles[i]|);
      a == Animator(Anim(i, |roles[i]|, false), CallType) &&
      TimerFires(roles, a) == Outcome(roles[i], a.state, 1500, StartDeleting) &&
      TimerFires(roles, Animator(a.state, StartDeleting)).shown == roles[i]
  {
    TypingPhase(roles, i, 0, |roles[i]|);
  }

  /** One firing of the "Dev" example: the frame it shows and where it leaves the animator. */
  lemma DevFrame(st: Anim, cb: Callback, f: Frame, st': Anim, cb': Callback, k: nat)
    requires WellFormed(["Dev"], st) && WellFormed(["Dev"], st')
    requires var o := TimerFires(["Dev"], Animator(st, cb)); o.shown == f.text && o.delay == f.delay && o.next == st' && o.armed == cb'
    ensures Trace(["Dev"], Animator(st, cb), k + 1) == [f] + Trace(["Dev"], Animator(st', cb'), k)
  {
  }

  /** The example of a single role "Dev": the frames of the first nine firings. */
  lemma DevExample()
    ensures Trace(["Dev"], Start, 9) == [
      Frame("", 90), Frame("D", 90), Frame("De", 90), Frame("Dev", 1500),
      Frame("Dev", 60), Frame("De", 60), Frame("D", 60), Frame("", 300), Frame("", 90)]
  {
    var r: seq<string> := ["Dev"];
    assert r[0][..0] == "" && r[0][..1] == "D" && r[0][..2] == "De" && r[0][..3] == "Dev";
    DevDeleting();
    DevFrame(Anim(0, 3, false), CallType, Frame("Dev", 1500), Anim(0, 3, false), StartDeleting, 5);
    DevFrame(Anim(0, 2, false), CallType, Frame("De", 90), Anim(0, 3, false), CallType, 6);
    DevFrame(Anim(0, 1, false), CallType, Frame("D", 90), Anim(0, 2, false), CallType, 7);
    DevFrame(Anim(0, 0, false), CallType, Frame("", 90), Anim(0, 1, false), CallType, 8);
  }

  /** The second half of the "Dev" example: from the pause arrow on, the role is deleted and typing
      starts over. */
  lemma DevDeleting()
    ensures Trace(["Dev"], Animator(Anim(0, 3, false), StartDeleting), 5) == [
      Frame("Dev", 60), Frame("De", 60), Frame("D", 60), Frame("", 300), Frame("", 90)]
  {
    var r: seq<string> := ["Dev"];
    assert r[0][..0] == "" && r[0][..1] == "D" && r[0][..2] == "De" && r[0][..3] == "Dev";
    DevFrame(Anim(0, 0, true), CallType, Frame("", 300), Anim(0, 0, false), CallType, 1);
    DevFrame(Anim(0, 0, false), CallType, Frame("", 90), Anim(0, 1, false), CallType, 0);
    DevFrame(Anim(0, 1, true), CallType, Frame("D", 60), Anim(0, 0, true), CallType, 2);
    DevFrame(Anim(0, 2, true), CallType, Frame("De", 60), Anim(0, 1, true), CallType, 3);
    DevFrame(Anim(0, 3, false), StartDeleting, Frame("Dev", 60), Anim(0, 2, true), CallType, 4);
  }

  /**
   * The animator's module-level state. `text` is the content of the typing element; `hasTarget`
   * says whether that element exists (when it does not, the counters still move).
   */
  class Typer {
    const roles: seq<string>
    const hasTarget: bool
    var roleIndex: nat
    var charIndex: nat
    var isDeleting: bool
    var pending: Callback
    var text: string

    ghost predicate Valid()
      reads this
    {
      WellFormed(roles, State())
    }

    function State(): Anim
      reads this
    {
      Anim(roleIndex, charIndex, isDeleting)
    }

    constructor (roles: seq<string>, hasTarget: bool, text: string)
      requires |roles| > 0
      ensures Valid()
      ensures this.roles == roles && this.hasTarget == hasTarget && this.text == text
      ensures Animator(State(), pending) == Start
    {
      this.roles := roles;
      this.hasTarget := hasTarget;
      this.text := text;
      roleIndex, charIndex, isDeleting := 0, 0, false;
      pending := CallType;
    }

    /** `type()`: show the current prefix, take one branch and return the delay it schedules. */
    method Type() returns (delay: nat)
      requires Valid()
      modifies this
      ensures Valid()
      ensures text == if hasTarget then old(roles[roleIndex][..charIndex]) else old(text)
      ensures var o := TypeCall(roles, old(State()));
        State() == o.next && delay == o.delay && pending == o.armed
    {
      var currentRole := roles[roleIndex];
      var displayedText := currentRole[..charIndex];
      if hasTarget {
        text := displayedText;
      }
      if !isDeleting && charIndex < |currentRole| {
        charIndex := charIndex + 1;
        pending, delay := CallType, 90;
      } else if !isDeleting && charIndex == |currentRole| {
        pending, delay := StartDeleting, 1500;
      } else if isDeleting && charIndex > 0 {
        charIndex := charIndex - 1;
        pending, delay := CallType, 60;
      } else {
        assert isDeleting && charIndex == 0;
        isDeleting := false;
        roleIndex := (roleIndex + 1) % |roles|;
        pending, delay := CallType, 300;
      }
    }

    /** The armed timer fires and runs its callback. */
    method Fire() returns (delay: nat)
      requires Valid()
      modifies this
      ensures Valid()
      ensures var o := TimerFires(roles, Animator(old(State()), old(pending)));
        State() == o.next && delay == o.delay && pending == o.armed &&
        text == (if hasTarget then o.shown else old(text))
    {
      if pending == StartDeleting {
        isDeleting := true;
      }
      delay := Type();
    }
  }
}
