/** Linking: which declarations of a set of modules are enabled. */
module Linker {
  import opened Wrappers

  /** A symbol of one of the symbol tables, other than a class permission. */
  datatype Symbol = Symbol(table: nat, id: string)
  const SYM_CLASSES: nat := 1

  datatype PermReq = PermReq(cls: string, perm: string)

  /** What a declaration requires, in the order in which it is checked. */
  datatype Decl = Decl(symbols: seq<Symbol>, perms: seq<PermReq>)

  /** Where a symbol is declared (or, when not `declared`, only required). */
  datatype Scope = Scope(declared: bool, declIds: seq<nat>)

  datatype ClassDatum = ClassDatum(perms: set<string>, common: Option<set<string>>)

  /** A block: its branches are declarations, the first one and possibly an else. */
  datatype Block = Block(optional: bool, branches: seq<nat>)

  /** The parts of the base policy that enabling reads. Declaration ids index `decls`;
      an id without a declaration has None. */
  datatype Base = Base(decls: seq<Option<Decl>>, blocks: seq<Block>, scopes: map<Symbol, Scope>, classes: map<string,
                       ClassDatum>) {

    ghost predicate Valid() {
      && blocks != []
      && (forall b | 0 <= b < |blocks| :: blocks[b].branches != [])
      && (forall b, k | 0 <= b < |blocks| && 0 <= k < |blocks[b].branches| ::
            blocks[b].branches[k] < |decls| && decls[blocks[b].branches[k]].Some?)
      && (forall d | 0 <= d < |decls| && decls[d].Some? :: exists b :: 0 <= b < |blocks| && d in blocks[b].branches)
      && (forall b, c, k, l | 0 <= b < |blocks| && 0 <= c < |blocks| && 0 <= k < |blocks[b].branches| &&
          0 <= l < |blocks[c].branches| ::
            blocks[b].branches[k] == blocks[c].branches[l] ==> b == c && k == l)
      && (forall s, k | s in scopes && 0 <= k < |scopes[s].declIds| :: scopes[s].declIds[k] < |decls|)
    }

    /** The declarations that are not else branches. */
    ghost function Heads(): set<nat>
      requires Valid()
    {
      set b | 0 <= b < |blocks| :: blocks[b].branches[0]
    }

    // ---------- what it takes to be enabled ----------

    predicate IdEnabled(s: Symbol, on: set<nat>) {
      s in scopes && scopes[s].declared &&
      exists k :: 0 <= k < |scopes[s].declIds| && scopes[s].declIds[k] < |decls|
                  && decls[scopes[s].declIds[k]].Some? && scopes[s].declIds[k] in on
    }

    predicate HasPerm(r: PermReq) {
      r.cls in classes &&
      (r.perm in classes[r.cls].perms || (classes[r.cls].common.Some? && r.perm in classes[r.cls].common.value))
    }

    predicate PermEnabled(r: PermReq, on: set<nat>) {
      IdEnabled(Symbol(SYM_CLASSES, r.cls), on) && HasPerm(r)
    }

    /** The requirements of a declaration are met by the declarations in `on`. */
    ghost predicate Met(d: nat, on: set<nat>)
      requires d < |decls| && decls[d].Some?
    {
      && (forall k | 0 <= k < |decls[d].value.symbols| :: IdEnabled(decls[d].value.symbols[k], on))
      && (forall k | 0 <= k < |decls[d].value.perms| :: PermEnabled(decls[d].value.perms[k], on))
    }

    /** A set of declarations that supports itself. */
    ghost predicate Consistent(s: set<nat>)
      requires Valid()
    {
      s <= Heads() && forall d | d in s :: d < |decls| && decls[d].Some? && Met(d, s)
    }

    /** Everything that some self-supporting set contains. */
    ghost function Greatest(): set<nat>
      requires Valid()
    {
      set d | d in Heads() && exists t :: Consistent(t) && d in t
    }

    function Head(b: nat): nat
      requires b < |blocks| && blocks[b].branches != []
    {
      blocks[b].branches[0]
    }

    /** The verdict on a declaration: symbols come first, then permissions in order, up to
        the first that is missing or whose class has no scope at all. */
    ghost function Judge(d: nat, on: set<nat>): Verdict
      requires d < |decls| && decls[d].Some?
    {
      if exists k :: 0 <= k < |decls[d].value.symbols| && !IdEnabled(decls[d].value.symbols[k], on) then Missing
      else JudgePerms(decls[d].value.perms, on, 0)
    }

    function JudgePerms(perms: seq<PermReq>, on: set<nat>, i: nat): Verdict
      requires i <= |perms|
      decreases |perms| - i
    {
      if i == |perms| then AllMet
      else if Symbol(SYM_CLASSES, perms[i].cls) !in scopes then NoClassScope
      else if !PermEnabled(perms[i], on) then Missing
      else JudgePerms(perms, on, i + 1)
    }

    // ---------- the sweeps, on sets ----------

    /** What one block makes of the enabled heads, and whether the sweep ends there. */
    ghost function AtBlock(on: set<nat>, b: nat): (r: (set<nat>, LinkResult))
      requires Valid() && b < |blocks|
      ensures r.0 == on || (Head(b) in on && r.0 == on - {Head(b)})
    {
      if Head(b) !in on then (on, Ok)
      else
        match Judge(Head(b), on)
        case AllMet => (on, Ok)
        case NoClassScope => (on, ERR)
        case Missing => (on - {Head(b)}, if blocks[b].optional then Ok else EREQ)
    }

    /** What a sweep from block b on makes of them, and how it ends. */
    ghost function SweepFrom(on: set<nat>, b: nat): (r: (set<nat>, LinkResult))
      requires Valid() && b <= |blocks|
      ensures r.0 <= on
      decreases |blocks| - b
    {
      if b == |blocks| then (on, Ok)
      else
        var r := AtBlock(on, b);
        if r.1 != Ok then r else SweepFrom(r.0, b + 1)
    }

    /** How repeated sweeps end. */
    ghost function Settle(on: set<nat>): LinkResult
      requires Valid()
      decreases on
    {
      var r := SweepFrom(on, 0);
      if r.1 != Ok || r.0 == on then r.1 else Settle(r.0)
    }

    /** Nothing is missing up to a class without scope. */
    ghost predicate Stuck(d: nat, on: set<nat>)
      requires d < |decls| && decls[d].Some?
    {
      Judge(d, on) == NoClassScope
    }

    ghost predicate SomeHeadStuck(on: set<nat>)
      requires Valid()
    {
      exists b :: 0 <= b < |blocks| && Stuck(Head(b), on)
    }
  }

  datatype Verdict = AllMet | Missing | NoClassScope
  datatype LinkResult = Ok | EREQ | ERR

  lemma {:induction false} JudgePermsMet(base: Base, perms: seq<PermReq>, on: set<nat>, i: nat)
    requires i <= |perms|
    ensures base.JudgePerms(perms, on, i) == AllMet <==> forall k | i <= k < |perms| :: base.PermEnabled(perms[k], on)
    decreases |perms| - i
  {
    if i < |perms| { JudgePermsMet(base, perms, on, i + 1); }
  }

  lemma JudgeIsMet(base: Base, d: nat, on: set<nat>)
    requires d < |base.decls| && base.decls[d].Some?
    ensures base.Judge(d, on) == AllMet <==> base.Met(d, on)
  {
    JudgePermsMet(base, base.decls[d].value.perms, on, 0);
  }

  lemma IdStays(base: Base, s: Symbol, on: set<nat>, more: set<nat>)
    requires on <= more && base.IdEnabled(s, on)
    ensures base.IdEnabled(s, more)
  {
  }

  lemma {:induction false} StuckPermsStay(base: Base, perms: seq<PermReq>, on: set<nat>, more: set<nat>, i: nat)
    requires i <= |perms| && on <= more && base.JudgePerms(perms, on, i) == NoClassScope
    ensures base.JudgePerms(perms, more, i) == NoClassScope
    decreases |perms| - i
  {
    if Symbol(SYM_CLASSES, perms[i].cls) in base.scopes {
      IdStays(base, Symbol(SYM_CLASSES, perms[i].cls), on, more);
      StuckPermsStay(base, perms, on, more, i + 1);
    }
  }

  /** What is stuck stays so when more is enabled. */
  lemma StuckStays(base: Base, d: nat, on: set<nat>, more: set<nat>)
    requires d < |base.decls| && base.decls[d].Some? && on <= more && base.Stuck(d, on)
    ensures base.Stuck(d, more)
  {
    forall k | 0 <= k < |base.decls[d].value.symbols| ensures base.IdEnabled(base.decls[d].value.symbols[k], more) {
      IdStays(base, base.decls[d].value.symbols[k], on, more);
    }
    StuckPermsStay(base, base.decls[d].value.perms, on, more, 0);
  }

  lemma {:induction false} SweepErr(base: Base, on: set<nat>, b: nat)
    requires base.Valid() && b <= |base.blocks| && base.SweepFrom(on, b).1 == ERR
    ensures base.SomeHeadStuck(on)
    decreases |base.blocks| - b
  {
    var r := base.AtBlock(on, b);
    if r.1 == Ok {
      SweepErr(base, r.0, b + 1);
      StuckAbove(base, r.0, on);
    } else {
      assert base.Stuck(base.Head(b), on);
    }
  }

  lemma StuckAbove(base: Base, on: set<nat>, more: set<nat>)
    requires base.Valid() && on <= more && base.SomeHeadStuck(on)
    ensures base.SomeHeadStuck(more)
  {
    var c :| 0 <= c < |base.blocks| && base.Stuck(base.Head(c), on);
    StuckStays(base, base.Head(c), on, more);
  }

  /** The error for a class without scope needs a block that is stuck when all are enabled. */
  lemma {:induction false} SettleErr(base: Base, on: set<nat>)
    requires base.Valid() && base.Settle(on) == ERR
    ensures base.SomeHeadStuck(on)
    decreases on
  {
    var r := base.SweepFrom(on, 0);
    if r.1 == ERR {
      SweepErr(base, on, 0);
    } else {
      SettleErr(base, r.0);
      StuckAbove(base, r.0, on);
    }
  }

  /** A member of a set that supports itself is judged met by whatever contains the set. */
  lemma SupportedIsMet(base: Base, g: set<nat>, on: set<nat>, d: nat)
    requires base.Valid() && base.Consistent(g) && g <= on && d in g
    ensures d < |base.decls| && base.decls[d].Some? && base.Judge(d, on) == AllMet
  {
    MetIsMonotone(base, d, g, on);
    JudgeIsMet(base, d, on);
  }

  lemma BlockKeeps(base: Base, g: set<nat>, on: set<nat>, b: nat)
    requires base.Valid() && b < |base.blocks| && base.Consistent(g) && g <= on
    ensures g <= base.AtBlock(on, b).0
  {
    if base.Head(b) in g { SupportedIsMet(base, g, on, base.Head(b)); }
  }

  lemma {:induction false} SweepKeeps(base: Base, g: set<nat>, on: set<nat>, b: nat)
    requires base.Valid() && b <= |base.blocks| && base.Consistent(g) && g <= on
    ensures g <= base.SweepFrom(on, b).0
    decreases |base.blocks| - b
  {
    if b < |base.blocks| {
      BlockKeeps(base, g, on, b);
      if base.AtBlock(on, b).1 == Ok { SweepKeeps(base, g, base.AtBlock(on, b).0, b + 1); }
    }
  }

  /** A sweep that goes through passed no block that would be stuck at its end. */
  lemma {:induction false} SweepPassed(base: Base, on: set<nat>, b: nat, c: nat)
    requires base.Valid() && b <= c < |base.blocks| && base.SweepFrom(on, b).1 == Ok && base.Head(c) in on
    ensures !base.Stuck(base.Head(c), base.SweepFrom(on, b).0)
    decreases |base.blocks| - b
  {
    var r, last := base.AtBlock(on, b), base.SweepFrom(on, b).0;
    if b == c {
      if base.Stuck(base.Head(b), last) { StuckStays(base, base.Head(b), last, on); }
    } else {
      OtherHead(base, b, c);
      SweepPassed(base, r.0, b + 1, c);
    }
  }

  lemma OtherHead(base: Base, b: nat, c: nat)
    requires base.Valid() && b < c < |base.blocks|
    ensures base.Head(b) != base.Head(c)
  {
  }

  /** And a block that is stuck in the greatest set keeps linking from going through. */
  lemma StuckFails(base: Base)
    requires base.Valid() && base.SomeHeadStuck(base.Greatest())
    ensures base.Settle(base.Heads()) != Ok
  {
    GreatestIsConsistent(base);
    var c :| 0 <= c < |base.blocks| && base.Stuck(base.Head(c), base.Greatest());
    StuckInFails(base, base.Greatest(), base.Heads(), c);
  }

  lemma StuckInFails(base: Base, g: set<nat>, on: set<nat>, c: nat)
    requires base.Valid() && base.Consistent(g) && g <= on
    requires c < |base.blocks| && base.Head(c) in on && base.Stuck(base.Head(c), g)
    ensures base.Settle(on) != Ok
  {
    var r := base.SweepFrom(on, 0);
    SweepKeeps(base, g, on, 0);
    if r.1 == Ok {
      StuckStays(base, base.Head(c), g, r.0);
      SweepPassed(base, on, 0, c);
    }
  }

  ghost predicate AllOptional(base: Base) {
    forall c {:trigger base.blocks[c]} | 0 <= c < |base.blocks| :: base.blocks[c].optional
  }

  lemma {:induction false} OptionalSweep(base: Base, on: set<nat>, b: nat)
    requires base.Valid() && b <= |base.blocks| && AllOptional(base)
    ensures base.SweepFrom(on, b).1 != EREQ
    decreases |base.blocks| - b
  {
    if b < |base.blocks| {
      assert base.blocks[b].optional;
      if base.AtBlock(on, b).1 == Ok { OptionalSweep(base, base.AtBlock(on, b).0, b + 1); }
    }
  }

  /** If all blocks are optional, only a class without scope makes linking fail. */
  lemma {:induction false} OptionalSettle(base: Base, on: set<nat>)
    requires base.Valid() && AllOptional(base)
    ensures base.Settle(on) != EREQ
    decreases on
  {
    var r := base.SweepFrom(on, 0);
    OptionalSweep(base, on, 0);
    if r.1 == Ok && r.0 != on { OptionalSettle(base, r.0); }
  }

  /** More enabled declarations meet more requirements. */
  lemma MetIsMonotone(base: Base, d: nat, on: set<nat>, more: set<nat>)
    requires d < |base.decls| && base.decls[d].Some? && on <= more && base.Met(d, on)
    ensures base.Met(d, more)
  {
    forall k | 0 <= k < |base.decls[d].value.perms|
      ensures base.PermEnabled(base.decls[d].value.perms[k], more)
    {
      assert base.PermEnabled(base.decls[d].value.perms[k], on);
    }
    forall k | 0 <= k < |base.decls[d].value.symbols|
      ensures base.IdEnabled(base.decls[d].value.symbols[k], more)
    {
      assert base.IdEnabled(base.decls[d].value.symbols[k], on);
    }
  }

  /** The union of all self-supporting sets supports itself, and is the greatest of them. */
  lemma GreatestIsConsistent(base: Base)
    requires base.Valid()
    ensures base.Consistent(base.Greatest())
    ensures forall t | base.Consistent(t) :: t <= base.Greatest()
  {
    var g := base.Greatest();
    forall t | base.Consistent(t) ensures t <= g {
      forall d | d in t ensures d in g {
        assert d in base.Heads();
      }
    }
    forall d | d in g ensures d < |base.decls| && base.decls[d].Some? && base.Met(d, g) {
      var t :| base.Consistent(t) && d in t;
      MetIsMonotone(base, d, t, g);
    }
  }

  /** What is not met by a set that contains the greatest one is not in the greatest one. */
  lemma UnmetIsOut(base: Base, d: nat, on: set<nat>)
    requires base.Valid() && d < |base.decls| && base.decls[d].Some?
    requires base.Greatest() <= on && !base.Met(d, on)
    ensures d !in base.Greatest()
  {
    GreatestIsConsistent(base);
    if d in base.Greatest() { MetIsMonotone(base, d, base.Greatest(), on); }
  }

  lemma BranchesDisjoint(base: Base, b: nat, c: nat)
    requires base.Valid() && b < |base.blocks| && c < |base.blocks| && b != c
    ensures forall d | d in base.blocks[b].branches :: d !in base.blocks[c].branches
  {
  }

  /** If of every block just the head is on, then the heads are what is on. */
  lemma OnlyHeads(base: Base, on: set<nat>)
    requires base.Valid()
    requires forall d | d in on :: d < |base.decls| && base.decls[d].Some?
    requires forall b | 0 <= b < |base.blocks| :: (set d | d in base.blocks[b].branches) * on == {base.Head(b)}
    ensures on == base.Heads()
  {
    forall d | d in on
      ensures d in base.Heads()
    {
      var b :| 0 <= b < |base.blocks| && d in base.blocks[b].branches;
      assert d in (set d | d in base.blocks[b].branches) * on;
    }
    forall d | d in base.Heads()
      ensures d in on
    {
      var b :| 0 <= b < |base.blocks| && base.blocks[b].branches[0] == d;
      assert base.Head(b) in (set d | d in base.blocks[b].branches) * on;
    }
  }

  /** The heads of all blocks that are not optional are on. */
  ghost predicate MandatoryOn(base: Base, on: set<nat>)
    requires base.Valid()
  {
    forall b | 0 <= b < |base.blocks| && !base.blocks[b].optional :: base.Head(b) in on
  }

  /** Disabling the head of an optional block leaves those on. */
  lemma MandatoryStays(base: Base, b: nat, before: set<nat>, on: set<nat>)
    requires base.Valid() && b < |base.blocks| && base.blocks[b].optional && on == before - {base.Head(b)}
    ensures MandatoryOn(base, before) ==> MandatoryOn(base, on)
  {
    if MandatoryOn(base, before) {
      forall c | 0 <= c < |base.blocks| && !base.blocks[c].optional
        ensures base.Head(c) in on
      {
        assert base.Head(c) != base.Head(b);
      }
    }
  }

  ghost predicate HeadMet(base: Base, b: nat, on: set<nat>)
    requires base.Valid() && b < |base.blocks|
  {
    base.Head(b) in on ==> base.Met(base.Head(b), on)
  }

  lemma AllHeadsMet(base: Base, on: set<nat>)
    requires base.Valid() && on <= base.Heads()
    requires forall b | 0 <= b < |base.blocks| :: HeadMet(base, b, on)
    ensures base.Consistent(on)
  {
    forall d | d in on
      ensures d < |base.decls| && base.decls[d].Some? && base.Met(d, on)
    {
      var b :| 0 <= b < |base.blocks| && base.blocks[b].branches[0] == d;
      assert HeadMet(base, b, on);
    }
  }

  class LinkState {
    const base: Base
    /** decl->enabled, by declaration id. */
    var declEnabled: seq<bool>
    /** block->enabled: the declaration enabled, if any. */
    var blockEnabled: seq<Option<nat>>

    constructor (base: Base, declEnabled: seq<bool>, blockEnabled: seq<Option<nat>>)
      requires base.Valid() && |declEnabled| == |base.decls| && |blockEnabled| == |base.blocks|
      ensures Valid() && this.base == base
    {
      this.base := base;
      this.declEnabled, this.blockEnabled := declEnabled, blockEnabled;
    }

    ghost predicate Valid()
      reads this
    {
      base.Valid() && |declEnabled| == |base.decls| && |blockEnabled| == |base.blocks|
    }

    /** The declarations that exist and are enabled. */
    ghost function On(): set<nat>
      requires Valid()
      reads this
    {
      set d | 0 <= d < |base.decls| && base.decls[d].Some? && declEnabled[d]
    }

    method IsIdEnabled(s: Symbol) returns (enabled: bool)
      requires Valid()
      ensures enabled <==> base.IdEnabled(s, On())
    {
      if s !in base.scopes { return false; }
      var scope := base.scopes[s];
      if !scope.declared { return false; }
      for i := 0 to |scope.declIds|
        invariant forall k | 0 <= k < i :: scope.declIds[k] !in On()
      {
        var d := scope.declIds[i];
        if base.decls[d].Some? && declEnabled[d] { return true; }
      }
      return false;
    }

    method IsPermEnabled(r: PermReq) returns (enabled: bool)
      requires Valid()
      ensures enabled <==> base.PermEnabled(r, On())
    {
      enabled := IsIdEnabled(Symbol(SYM_CLASSES, r.cls));
      if !enabled { return; }
      if r.cls !in base.classes { return false; }
      var cladatum := base.classes[r.cls];
      enabled := r.perm in cladatum.perms;
      if !enabled && cladatum.common.Some? {
        enabled := r.perm in cladatum.common.value;
      }
    }

    method IsDeclRequiresMet(d: nat) returns (v: Verdict)
      requires Valid() && d < |base.decls| && base.decls[d].Some?
      ensures v == base.Judge(d, On())
      ensures v == AllMet <==> base.Met(d, On())
    {
      JudgeIsMet(base, d, On());
      var decl := base.decls[d].value;
      for i := 0 to |decl.symbols|
        invariant forall k | 0 <= k < i :: base.IdEnabled(decl.symbols[k], On())
      {
        var ok := IsIdEnabled(decl.symbols[i]);
        if !ok { return Missing; }
      }
      for i := 0 to |decl.perms|
        invariant base.Judge(d, On()) == base.JudgePerms(decl.perms, On(), i)
      {
        if Symbol(SYM_CLASSES, decl.perms[i].cls) !in base.scopes { return NoClassScope; }
        var ok := IsPermEnabled(decl.perms[i]);
        if !ok { return Missing; }
      }
      return AllMet;
    }

    /** Only heads are on, and block->enabled says for every block whether its is. */
    ghost predicate HeadsOnly()
      requires Valid()
      reads this
    {
      && On() <= base.Heads()
      && forall b | 0 <= b < |base.blocks| ::
           blockEnabled[b] == if base.Head(b) in On() then Some(base.Head(b)) else None
    }

    ghost function BranchSet(b: nat): set<nat>
      requires b < |base.blocks|
    {
      set d | d in base.blocks[b].branches
    }

    /** Writes decl->enabled. */
    method SetDecl(d: nat, enabled: bool)
      requires Valid() && d < |base.decls| && base.decls[d].Some?
      modifies this`declEnabled
      ensures Valid() && On() == if enabled then old(On()) + {d} else old(On()) - {d}
    {
      declEnabled := declEnabled[d := enabled];
    }

    /** Enables the head of one block and disables its other branches. */
    method EnableHead(b: nat)
      requires Valid() && b < |base.blocks|
      modifies this
      ensures Valid() && blockEnabled == old(blockEnabled)[b := Some(base.Head(b))]
      ensures On() == old(On()) - BranchSet(b) + {base.Head(b)}
    {
      var branches := base.blocks[b].branches;
      blockEnabled := blockEnabled[b := Some(branches[0])];
      SetDecl(branches[0], true);
      ghost var off := {};
      for k := 1 to |branches|
        invariant Valid() && blockEnabled == old(blockEnabled)[b := Some(base.Head(b))]
        invariant off == set l | 1 <= l < k :: branches[l]
        invariant On() == old(On()) - off + {base.Head(b)}
      {
        assert base.blocks[b].branches[k] != base.blocks[b].branches[0];
        SetDecl(branches[k], false);
        off := off + {branches[k]};
      }
      assert BranchSet(b) == off + {base.Head(b)};
    }

    /** Of the first b blocks, the heads are on and nothing else. */
    ghost predicate HeadsTo(b: nat, on: set<nat>)
      requires base.Valid() && b <= |base.blocks|
    {
      forall c | 0 <= c < b :: BranchSet(c) * on == {base.Head(c)}
    }

    lemma HeadsNext(b: nat, on: set<nat>)
      requires base.Valid() && b < |base.blocks| && HeadsTo(b, on)
      ensures HeadsTo(b + 1, on - BranchSet(b) + {base.Head(b)})
    {
      assert base.Head(b) in BranchSet(b);
      forall c | 0 <= c < b
        ensures BranchSet(c) * (on - BranchSet(b) + {base.Head(b)}) == {base.Head(c)}
      {
        BranchesDisjoint(base, c, b);
        assert base.Head(c) in BranchSet(c) * on;
      }
    }

    /** Step 1: enable the head of every block and nothing else. */
    method EnableHeads()
      requires Valid()
      modifies this
      ensures Valid() && On() == base.Heads() && HeadsOnly()
    {
      for b := 0 to |base.blocks|
        invariant Valid() && HeadsTo(b, On())
        invariant forall c | 0 <= c < b :: blockEnabled[c] == Some(base.Head(c))
      {
        HeadsNext(b, On());
        EnableHead(b);
      }
      OnlyHeads(base, On());
    }

    /** Examines one block. */
    method CheckBlock(b: nat) returns (changed: bool, r: LinkResult)
      requires Valid() && HeadsOnly() && base.Greatest() <= On() && b < |base.blocks|
      modifies this
      ensures Valid() && HeadsOnly() && base.Greatest() <= On()
      ensures On() == if changed then old(On()) - {base.Head(b)} else old(On())
      ensures changed ==> base.Head(b) in old(On())
      ensures (On(), r) == base.AtBlock(old(On()), b)
      ensures r == EREQ ==> !base.blocks[b].optional && base.Head(b) !in base.Greatest()
      ensures r == Ok && MandatoryOn(base, old(On())) ==> MandatoryOn(base, On())
      ensures r == Ok && !changed && base.Head(b) in On() ==> base.Met(base.Head(b), On())
    {
      changed, r := false, Ok;
      if blockEnabled[b].None? { return; }
      var d := base.Head(b);
      var v := IsDeclRequiresMet(d);
      if v == NoClassScope { return false, ERR; }
      if v == Missing {
        UnmetIsOut(base, d, On());
        Disable(b);
        changed := true;
        if base.blocks[b].optional {
          MandatoryStays(base, b, old(On()), On());
        } else {
          r := EREQ;
        }
      }
    }

    /** One sweep over the blocks: disables heads whose requirements are not met. A
        sweep that changes nothing shows that all requirements are met. */
    method Sweep() returns (changed: bool, r: LinkResult)
      requires Valid() && HeadsOnly() && base.Greatest() <= On()
      modifies this
      ensures Valid() && HeadsOnly() && base.Greatest() <= On() <= old(On())
      ensures (On(), r) == base.SweepFrom(old(On()), 0)
      ensures r == EREQ ==>
        exists b :: 0 <= b < |base.blocks| && !base.blocks[b].optional && base.Head(b) !in base.Greatest()
      ensures r == Ok && changed ==> On() < old(On())
      ensures r == Ok && !changed ==> On() == old(On()) && base.Consistent(On())
      ensures r == Ok && MandatoryOn(base, old(On())) ==> MandatoryOn(base, On())
    {
      changed, r := false, Ok;
      for b := 0 to |base.blocks|
        invariant Valid() && HeadsOnly() && base.Greatest() <= On() <= old(On())
        invariant base.SweepFrom(old(On()), 0) == base.SweepFrom(On(), b)
        invariant changed ==> On() < old(On())
        invariant !changed ==> On() == old(On()) && forall c | 0 <= c < b :: HeadMet(base, c, On())
        invariant MandatoryOn(base, old(On())) ==> MandatoryOn(base, On())
      {
        var changedHere, result := CheckBlock(b);
        if result != Ok { return changed || changedHere, result; }
        changed := changed || changedHere;
      }
      if !changed { AllHeadsMet(base, On()); }
    }

    method Disable(b: nat)
      requires Valid() && HeadsOnly() && b < |base.blocks| && base.Head(b) in On()
      modifies this
      ensures Valid() && HeadsOnly() && On() == old(On()) - {base.Head(b)}
    {
      SetDecl(base.Head(b), false);
      blockEnabled := blockEnabled[b := None];
    }

    /** Step 4: blocks left without an enabled declaration get their else branch; the
        first block is passed over. */
    ghost function Elses(on: set<nat>): set<nat>
      requires Valid()
      reads this
    {
      set b | 1 <= b < |base.blocks| && base.Head(b) !in on && |base.blocks[b].branches| > 1 ::
        base.blocks[b].branches[1]
    }

    /** The same for the blocks before b. */
    ghost function ElsesBefore(on: set<nat>, b: nat): set<nat>
      requires Valid() && b <= |base.blocks|
      reads this
    {
      set c | 1 <= c < b && base.Head(c) !in on && |base.blocks[c].branches| > 1 :: base.blocks[c].branches[1]
    }

    /** block->enabled at the end, when the heads in `on` were enabled. */
    ghost function Chosen(on: set<nat>, b: nat): Option<nat>
      requires Valid() && b < |base.blocks|
      reads this
    {
      if base.Head(b) in on then Some(base.Head(b))
      else if b > 0 && |base.blocks[b].branches| > 1 then Some(base.blocks[b].branches[1])
      else None
    }

    method EnableElses(ghost on: set<nat>)
      requires Valid() && HeadsOnly() && on == On()
      modifies this
      ensures Valid() && On() == on + Elses(on)
      ensures forall b | 0 <= b < |base.blocks| :: blockEnabled[b] == Chosen(on, b)
    {
      for b := 1 to |base.blocks|
        invariant Valid() && On() == on + ElsesBefore(on, b)
        invariant forall c | 0 <= c < b :: blockEnabled[c] == Chosen(on, c)
        invariant forall c | b <= c < |base.blocks| ::
          blockEnabled[c] == if base.Head(c) in on then Some(base.Head(c)) else None
      {
        EnableElse(b, on);
        ElsesStep(on, b);
      }
    }

    /** The else branch of one block. */
    method EnableElse(b: nat, ghost on: set<nat>)
      requires Valid() && 1 <= b < |base.blocks|
      requires blockEnabled[b] == if base.Head(b) in on then Some(base.Head(b)) else None
      modifies this
      ensures Valid() && blockEnabled == old(blockEnabled)[b := Chosen(on, b)]
      ensures On() == old(On()) +
                if base.Head(b) !in on && |base.blocks[b].branches| > 1 then {base.blocks[b].branches[1]} else {}
    {
      if blockEnabled[b].None? && |base.blocks[b].branches| > 1 {
        var e := base.blocks[b].branches[1];
        blockEnabled := blockEnabled[b := Some(e)];
        SetDecl(e, true);
      }
    }

    lemma ElsesStep(on: set<nat>, b: nat)
      requires Valid() && 1 <= b < |base.blocks|
      ensures ElsesBefore(on, b + 1) == ElsesBefore(on, b) +
                if base.Head(b) !in on && |base.blocks[b].branches| > 1 then {base.blocks[b].branches[1]} else {}
    {
    }

    /** Enabling computes the greatest self-supporting set of heads, in whatever order
        the blocks come; it fails exactly when that set lacks a block that is not
        optional. Afterwards the else branches are added. */
    method EnableAvrules() returns (r: LinkResult)
      requires Valid()
      modifies this
      ensures Valid()
      ensures r == base.Settle(base.Heads())
      ensures r != ERR ==>
                (r == EREQ <==>
                 exists b :: 0 <= b < |base.blocks| && !base.blocks[b].optional && base.Head(b) !in base.Greatest())
      ensures r == Ok ==> On() == base.Greatest() + Elses(base.Greatest())
      ensures r == Ok ==> forall d ::
                d in On() <==>
                || d in base.Greatest()
                || exists b :: 0 < b < |base.blocks| && base.blocks[b].branches[0] !in base.Greatest()
                               && 1 < |base.blocks[b].branches| && base.blocks[b].branches[1] == d
      ensures r == Ok ==> forall b | 0 <= b < |base.blocks| :: blockEnabled[b] == Chosen(base.Greatest(), b)
    {
      EnableHeads();
      var changed := true;
      GreatestIsConsistent(base);
      while changed
        invariant Valid() && HeadsOnly() && base.Greatest() <= On()
        invariant MandatoryOn(base, On())
        invariant !changed ==> base.Consistent(On())
        invariant base.Settle(base.Heads()) == if changed then base.Settle(On()) else Ok
        decreases On(), changed
      {
        changed, r := Sweep();
        if r != Ok { return; }
      }
      assert On() == base.Greatest();
      EnableElses(base.Greatest());
      r := Ok;
    }
  }

  /** Else handling keeps the requirements of every enabled head met. */
  lemma ElsesKeepMet(base: Base, d: nat, elses: set<nat>)
    requires base.Valid() && d in base.Greatest()
    ensures d < |base.decls| && base.decls[d].Some? && base.Met(d, base.Greatest() + elses)
  {
    GreatestIsConsistent(base);
    MetIsMonotone(base, d, base.Greatest(), base.Greatest() + elses);
  }

  /** The outcome depends on the set of blocks only, not on their order. */
  lemma OrderDoesNotMatter(base: Base, base': Base)
    requires base.Valid() && base'.Valid()
    requires base'.decls == base.decls && base'.scopes == base.scopes && base'.classes == base.classes
    requires forall block :: block in base.blocks <==> block in base'.blocks
    ensures base.Greatest() == base'.Greatest()
  {
    HeadsIn(base, base');
    HeadsIn(base', base);
    GreatestIn(base, base');
    GreatestIn(base', base);
  }

  lemma HeadsIn(base: Base, base': Base)
    requires base.Valid() && base'.Valid()
    requires forall block :: block in base.blocks ==> block in base'.blocks
    ensures base.Heads() <= base'.Heads()
  {
    forall d | d in base.Heads()
      ensures d in base'.Heads()
    {
      var b :| 0 <= b < |base.blocks| && base.blocks[b].branches[0] == d;
      assert base.blocks[b] in base'.blocks;
      var c :| 0 <= c < |base'.blocks| && base'.blocks[c] == base.blocks[b];
    }
  }

  lemma GreatestIn(base: Base, base': Base)
    requires base.Valid() && base'.Valid() && base.Heads() == base'.Heads()
    requires base'.decls == base.decls && base'.scopes == base.scopes && base'.classes == base.classes
    ensures base.Greatest() <= base'.Greatest()
  {
    var g := base.Greatest();
    GreatestIsConsistent(base);
    forall d | d in g
      ensures d < |base'.decls| && base'.decls[d].Some? && base'.Met(d, g)
    {
      SameMet(base, base', d, g);
    }
    assert base'.Consistent(g);
    GreatestIsConsistent(base');
  }

  lemma SameMet(base: Base, base': Base, d: nat, on: set<nat>)
    requires base'.decls == base.decls && base'.scopes == base.scopes && base'.classes == base.classes
    requires d < |base.decls| && base.decls[d].Some? && base.Met(d, on)
    ensures base'.Met(d, on)
  {
    forall k | 0 <= k < |base.decls[d].value.symbols|
      ensures base'.IdEnabled(base.decls[d].value.symbols[k], on)
    {
      assert base.IdEnabled(base.decls[d].value.symbols[k], on);
    }
    forall k | 0 <= k < |base.decls[d].value.perms|
      ensures base'.PermEnabled(base.decls[d].value.perms[k], on)
    {
      assert base.PermEnabled(base.decls[d].value.perms[k], on);
    }
  }

  // ---------- what linking comes to ----------

  /** Some enabled declaration declares the symbol. */
  ghost predicate DeclaredBy(base: Base, s: Symbol, on: set<nat>) {
    s in base.scopes && base.scopes[s].declared && exists d :: d in base.scopes[s].declIds && d in on
  }

  /** The class has the permission itself, or from its common. */
  predicate ClassHas(base: Base, cls: string, perm: string) {
    && cls in base.classes
    && (perm in base.classes[cls].perms
        || (base.classes[cls].common.Some? && perm in base.classes[cls].common.value))
  }

  /** All that a declaration requires is declared by enabled declarations. */
  ghost predicate SupportedBy(base: Base, d: nat, on: set<nat>) {
    && d < |base.decls| && base.decls[d].Some?
    && (forall s | s in base.decls[d].value.symbols :: DeclaredBy(base, s, on))
    && (forall r | r in base.decls[d].value.perms ::
          DeclaredBy(base, Symbol(SYM_CLASSES, r.cls), on) && ClassHas(base, r.cls, r.perm))
  }

  lemma DeclaredIsEnabled(base: Base, s: Symbol, on: set<nat>)
    requires base.Valid() && on <= base.Heads()
    ensures DeclaredBy(base, s, on) <==> base.IdEnabled(s, on)
  {
    if DeclaredBy(base, s, on) {
      var d :| d in base.scopes[s].declIds && d in on;
      var k :| 0 <= k < |base.scopes[s].declIds| && base.scopes[s].declIds[k] == d;
      HeadExists(base, d);
    }
  }

  lemma HeadExists(base: Base, d: nat)
    requires base.Valid() && d in base.Heads()
    ensures d < |base.decls| && base.decls[d].Some?
  {
    var b :| 0 <= b < |base.blocks| && base.blocks[b].branches[0] == d;
  }

  lemma SupportedMeansMet(base: Base, d: nat, on: set<nat>)
    requires base.Valid() && on <= base.Heads() && d in base.Heads()
    ensures SupportedBy(base, d, on) <==> d < |base.decls| && base.decls[d].Some? && base.Met(d, on)
  {
    HeadExists(base, d);
    var decl := base.decls[d].value;
    forall s ensures DeclaredBy(base, s, on) <==> base.IdEnabled(s, on) { DeclaredIsEnabled(base, s, on); }
    forall r: PermReq
      ensures base.PermEnabled(r, on) <==>
              DeclaredBy(base, Symbol(SYM_CLASSES, r.cls), on) && ClassHas(base, r.cls, r.perm)
    {
    }
    if base.Met(d, on) {
      forall s | s in decl.symbols ensures DeclaredBy(base, s, on) {
        var k :| 0 <= k < |decl.symbols| && decl.symbols[k] == s;
      }
      forall r | r in decl.perms ensures base.PermEnabled(r, on) {
        var k :| 0 <= k < |decl.perms| && decl.perms[k] == r;
      }
    }
  }

  /** What the check of a declaration comes to: met if it is supported; the error if all its
      symbols are declared and the first permission that is not supported belongs to a class
      without scope; and otherwise missing. */
  lemma JudgeMeans(base: Base, d: nat, on: set<nat>)
    requires base.Valid() && on <= base.Heads() && d in base.Heads()
    ensures d < |base.decls| && base.decls[d].Some?
    ensures base.Judge(d, on) == AllMet <==> SupportedBy(base, d, on)
    ensures base.Judge(d, on) == NoClassScope <==>
            && (forall s | s in base.decls[d].value.symbols :: DeclaredBy(base, s, on))
            && exists i :: 0 <= i < |base.decls[d].value.perms| && FirstUnscoped(base, base.decls[d].value.perms, on, i)
  {
    HeadExists(base, d);
    JudgeIsMet(base, d, on);
    SupportedMeansMet(base, d, on);
    var decl := base.decls[d].value;
    forall k | 0 <= k < |decl.symbols|
      ensures DeclaredBy(base, decl.symbols[k], on) <==> base.IdEnabled(decl.symbols[k], on)
    {
      DeclaredIsEnabled(base, decl.symbols[k], on);
    }
    UnscopedFrom(base, decl.perms, on, 0);
  }

  /** Permission i is of a class without scope, and all before it are supported. */
  ghost predicate FirstUnscoped(base: Base, perms: seq<PermReq>, on: set<nat>, i: nat)
    requires i < |perms|
  {
    && Symbol(SYM_CLASSES, perms[i].cls) !in base.scopes
    && forall j | 0 <= j < i ::
         DeclaredBy(base, Symbol(SYM_CLASSES, perms[j].cls), on) && ClassHas(base, perms[j].cls, perms[j].perm)
  }

  lemma {:induction false} UnscopedFrom(base: Base, perms: seq<PermReq>, on: set<nat>, i: nat)
    requires base.Valid() && on <= base.Heads() && i <= |perms|
    requires forall j | 0 <= j < i ::
               DeclaredBy(base, Symbol(SYM_CLASSES, perms[j].cls), on) && ClassHas(base, perms[j].cls, perms[j].perm)
    ensures base.JudgePerms(perms, on, i) == NoClassScope <==>
            exists k :: i <= k < |perms| && FirstUnscoped(base, perms, on, k)
    decreases |perms| - i
  {
    if i < |perms| {
      var class_ := Symbol(SYM_CLASSES, perms[i].cls);
      DeclaredIsEnabled(base, class_, on);
      if class_ !in base.scopes {
        assert FirstUnscoped(base, perms, on, i);
      } else if base.PermEnabled(perms[i], on) {
        UnscopedFrom(base, perms, on, i + 1);
      }
    }
  }

  /** Every block enabled at the end has all it requires from blocks enabled at the end, and
      every set of blocks that have all they require from the set is enabled. */
  lemma GreatestIsSupported(base: Base)
    requires base.Valid()
    ensures forall d | d in base.Greatest() :: SupportedBy(base, d, base.Greatest())
    ensures forall t: set<nat> | t <= base.Heads() && (forall d | d in t :: SupportedBy(base, d, t)) ::
              t <= base.Greatest()
  {
    GreatestIsConsistent(base);
    forall d | d in base.Greatest() ensures SupportedBy(base, d, base.Greatest()) {
      SupportedMeansMet(base, d, base.Greatest());
    }
    forall t: set<nat> | t <= base.Heads() && (forall d | d in t :: SupportedBy(base, d, t))
      ensures t <= base.Greatest()
    {
      forall d | d in t ensures d < |base.decls| && base.decls[d].Some? && base.Met(d, t) {
        assert SupportedBy(base, d, t);
        SupportedMeansMet(base, d, t);
      }
      assert base.Consistent(t);
    }
  }

  /** If what any block requires is declared by the heads of blocks, then linking goes
      through with all blocks enabled; and only then are they all enabled. */
  lemma AllDeclaredLinks(base: Base)
    requires base.Valid()
    ensures base.Greatest() == base.Heads() <==> forall d | d in base.Heads() :: SupportedBy(base, d, base.Heads())
    ensures base.Greatest() == base.Heads() ==> base.Settle(base.Heads()) == Ok
  {
    var all := base.Heads();
    GreatestIsSupported(base);
    if forall d | d in all :: SupportedBy(base, d, all) {
      assert all <= base.Greatest();
    }
    if base.Greatest() == all {
      GreatestIsConsistent(base);
      SweepIdle(base, all, 0);
    }
  }

  /** A set that supports itself is left as it is. */
  lemma {:induction false} SweepIdle(base: Base, on: set<nat>, b: nat)
    requires base.Valid() && base.Consistent(on) && b <= |base.blocks|
    ensures base.SweepFrom(on, b) == (on, Ok)
    decreases |base.blocks| - b
  {
    if b < |base.blocks| {
      if base.Head(b) in on { SupportedIsMet(base, on, on, base.Head(b)); }
      SweepIdle(base, on, b + 1);
    }
  }

  /** A block that is not optional and requires what no block declares makes linking fail. */
  lemma UndeclaredFails(base: Base, b: nat)
    requires base.Valid() && b < |base.blocks| && !base.blocks[b].optional
    requires !SupportedBy(base, base.blocks[b].branches[0], base.Heads())
    ensures base.Settle(base.Heads()) != Ok
  {
    var d := base.Head(b);
    assert d in base.Heads();
    if base.Settle(base.Heads()) == Ok {
      MandatoryMet(base, base.Heads(), 0, b);
      SupportedMeansMet(base, d, base.Heads());
    }
  }

  /** A sweep that goes through has met every block that is not optional. */
  lemma {:induction false} MandatoryMet(base: Base, on: set<nat>, b: nat, c: nat)
    requires base.Valid() && b <= c < |base.blocks| && !base.blocks[c].optional
    requires base.Head(c) in on && base.SweepFrom(on, b).1 == Ok
    ensures base.decls[base.Head(c)].Some? && base.Met(base.Head(c), on)
    decreases |base.blocks| - b
  {
    if b == c {
      JudgeIsMet(base, base.Head(c), on);
    } else {
      OtherHead(base, b, c);
      MandatoryMet(base, base.AtBlock(on, b).0, b + 1, c);
      MetIsMonotone(base, base.Head(c), base.AtBlock(on, b).0, on);
    }
  }
}
