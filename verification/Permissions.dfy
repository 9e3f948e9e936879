/** Channel permission masks: the five-stage fold, its relation to the catalogue resolver and
    to the visibility formula of the unread queries. Masks are 32-bit patterns, which is what
    the bitwise operators of the source work on. */
module Permissions {

  type Mask = bv32

  const READ: Mask := 0x0001
  const WRITE_MESSAGE: Mask := 0x0002
  const DELETE_OWN_MESSAGE: Mask := 0x0004
  const DELETE_ANY_MESSAGE: Mask := 0x0008
  const MANAGE_MEMBERS: Mask := 0x0010
  const MANAGE_CHANNEL: Mask := 0x0020
  const UPLOAD_ATTACHMENT: Mask := 0x0040
  const BYPASS_SLOWMODE: Mask := 0x0100
  const ALL_PERMISSIONS: Mask := 0x017F

  datatype WorkspaceRole = OWNER | ADMIN | MODERATOR | MEMBER | GUEST

  function RoleName(role: WorkspaceRole): string {
    match role
    case OWNER => "OWNER"
    case ADMIN => "ADMIN"
    case MODERATOR => "MODERATOR"
    case MEMBER => "MEMBER"
    case GUEST => "GUEST"
  }

  function RoleBaseline(role: WorkspaceRole): Mask {
    match role
    case OWNER => ALL_PERMISSIONS
    case ADMIN =>
      READ | WRITE_MESSAGE | DELETE_OWN_MESSAGE | DELETE_ANY_MESSAGE | MANAGE_MEMBERS
      | MANAGE_CHANNEL | UPLOAD_ATTACHMENT | BYPASS_SLOWMODE
    case MODERATOR =>
      READ | WRITE_MESSAGE | DELETE_OWN_MESSAGE | DELETE_ANY_MESSAGE | UPLOAD_ATTACHMENT | BYPASS_SLOWMODE
    case MEMBER => READ | WRITE_MESSAGE | DELETE_OWN_MESSAGE | UPLOAD_ATTACHMENT
    case GUEST => READ | WRITE_MESSAGE
  }

  datatype PrincipalType = USER | ROLE

  datatype ChannelOverride = ChannelOverride(
    principalType: PrincipalType, principalId: string, allowMask: Mask, denyMask: Mask)

  datatype EffectiveInput = EffectiveInput(
    role: WorkspaceRole, isPrivate: bool, userId: string, overrides: seq<ChannelOverride>)

  /** Whether an override is for this principal. */
  predicate Applies(o: ChannelOverride, t: PrincipalType, id: string) {
    o.principalType == t && o.principalId == id
  }

  datatype Side = Allow | Deny

  function Or(a: Mask, b: Mask): Mask { a | b }

  function MaskOf(o: ChannelOverride, side: Side): Mask {
    if side == Allow then o.allowMask else o.denyMask
  }

  /** The union of the masks of one side that apply to one principal. */
  function UnionOf(os: seq<ChannelOverride>, t: PrincipalType, id: string, side: Side): Mask {
    if os == [] then 0
    else Or(if Applies(os[0], t, id) then MaskOf(os[0], side) else 0, UnionOf(os[1..], t, id, side))
  }

  /** The four unions the fold works on. */
  datatype Grants = Grants(roleAllow: Mask, roleDeny: Mask, userAllow: Mask, userDeny: Mask)

  function GrantsOf(input: EffectiveInput): Grants {
    var role := RoleName(input.role);
    Grants(
      UnionOf(input.overrides, ROLE, role, Allow), UnionOf(input.overrides, ROLE, role, Deny),
      UnionOf(input.overrides, USER, input.userId, Allow), UnionOf(input.overrides, USER, input.userId, Deny))
  }

  /** `PermissionMatrix.fold` */
  function FoldMask(base: Mask, g: Grants): Mask {
    (((base | g.roleAllow) & !g.roleDeny) | g.userAllow) & !g.userDeny
  }

  /** The base the fold starts from: a private channel shows its role baseline only to those
      granted READ outright, and to the owner. */
  function GatedBase(role: WorkspaceRole, isPrivate: bool, g: Grants): Mask {
    var hasExplicitRead := (g.userAllow | g.roleAllow) & READ == READ;
    if role == OWNER then RoleBaseline(OWNER)
    else if !isPrivate || hasExplicitRead then RoleBaseline(role)
    else 0
  }

  /** `PermissionMatrix.effective` */
  function Effective(input: EffectiveInput): Mask {
    FoldMask(GatedBase(input.role, input.isPrivate, GrantsOf(input)), GrantsOf(input))
  }

  predicate Has(effective: Mask, perm: Mask) { effective & perm == perm }

  // ---- only the set of applicable overrides matters -----------------------------------------

  /** Every non-zero grant for the principal in `a` is also made in `b`. */
  ghost predicate Covers(a: seq<ChannelOverride>, b: seq<ChannelOverride>, t: PrincipalType, id: string) {
    forall o :: o in a && Applies(o, t, id) && (o.allowMask != 0 || o.denyMask != 0) ==> o in b
  }

  lemma ZeroAbsorbed(z: Mask)
    ensures Or(0, z) == z
  {
  }

  lemma UnionAbsorbed(x: Mask, y: Mask, z: Mask)
    requires Or(x, z) == z && Or(y, z) == z
    ensures Or(Or(x, y), z) == z
  {
  }

  lemma WiderAbsorbs(x: Mask, y: Mask, z: Mask)
    requires Or(x, z) == z
    ensures Or(x, Or(y, z)) == Or(y, z)
  {
  }

  lemma SelfAbsorbed(x: Mask, z: Mask)
    ensures Or(x, Or(x, z)) == Or(x, z)
  {
    hide Or;
    OrAssoc(x, x, z);
    OrSelf(x);
  }

  lemma OrAssoc(x: Mask, y: Mask, z: Mask)
    ensures Or(Or(x, y), z) == Or(x, Or(y, z))
  {
  }

  lemma OrSelf(x: Mask)
    ensures Or(x, x) == x
  {
  }

  lemma {:induction false} Absorbs(os: seq<ChannelOverride>, t: PrincipalType, id: string, side: Side,
        o: ChannelOverride)
    requires o in os && Applies(o, t, id)
    ensures Or(MaskOf(o, side), UnionOf(os, t, id, side)) == UnionOf(os, t, id, side)
  {
    hide MaskOf, Or;
    if o == os[0] {
      SelfAbsorbed(MaskOf(o, side), UnionOf(os[1..], t, id, side));
    } else {
      Absorbs(os[1..], t, id, side, o);
      var first := if Applies(os[0], t, id) then MaskOf(os[0], side) else 0;
      WiderAbsorbs(MaskOf(o, side), first, UnionOf(os[1..], t, id, side));
    }
  }

  lemma {:induction false} CoverUnion(a: seq<ChannelOverride>, b: seq<ChannelOverride>, t: PrincipalType,
        id: string, side: Side)
    requires Covers(a, b, t, id)
    ensures Or(UnionOf(a, t, id, side), UnionOf(b, t, id, side)) == UnionOf(b, t, id, side)
  {
    hide MaskOf, Or;
    if a == [] {
      ZeroAbsorbed(UnionOf(b, t, id, side));
    } else {
      CoverUnion(a[1..], b, t, id, side);
      FirstAbsorbed(a[0], b, t, id, side);
      var first := if Applies(a[0], t, id) then MaskOf(a[0], side) else 0;
      UnionAbsorbed(first, UnionOf(a[1..], t, id, side), UnionOf(b, t, id, side));
    }
  }

  lemma FirstAbsorbed(o: ChannelOverride, b: seq<ChannelOverride>, t: PrincipalType, id: string, side: Side)
    requires Applies(o, t, id) && (o.allowMask != 0 || o.denyMask != 0) ==> o in b
    ensures var m := if Applies(o, t, id) then MaskOf(o, side) else 0;
      Or(m, UnionOf(b, t, id, side)) == UnionOf(b, t, id, side)
  {
    if Applies(o, t, id) && (o.allowMask != 0 || o.denyMask != 0) {
      Absorbs(b, t, id, side, o);
    } else {
      ZeroAbsorbed(UnionOf(b, t, id, side));
    }
  }

  lemma SameUnion(a: seq<ChannelOverride>, b: seq<ChannelOverride>, t: PrincipalType, id: string, side: Side)
    requires Covers(a, b, t, id) && Covers(b, a, t, id)
    ensures UnionOf(a, t, id, side) == UnionOf(b, t, id, side)
  {
    CoverUnion(a, b, t, id, side);
    CoverUnion(b, a, t, id, side);
    UnionsEqual(UnionOf(a, t, id, side), UnionOf(b, t, id, side));
  }

  lemma UnionsEqual(x: Mask, y: Mask)
    requires Or(x, y) == y && Or(y, x) == x
    ensures x == y
  {
  }

  /** Order, repetition and empty join markers do not matter, nor do other people's overrides. */
  lemma EffectiveDependsOnSet(x: EffectiveInput, y: EffectiveInput)
    requires x.role == y.role && x.isPrivate == y.isPrivate && x.userId == y.userId
    requires Covers(x.overrides, y.overrides, ROLE, RoleName(x.role))
      && Covers(y.overrides, x.overrides, ROLE, RoleName(x.role))
    requires Covers(x.overrides, y.overrides, USER, x.userId) && Covers(y.overrides, x.overrides, USER, x.userId)
    ensures Effective(x) == Effective(y)
  {
    var role := RoleName(x.role);
    SameUnion(x.overrides, y.overrides, ROLE, role, Allow);
    SameUnion(x.overrides, y.overrides, ROLE, role, Deny);
    SameUnion(x.overrides, y.overrides, USER, x.userId, Allow);
    SameUnion(x.overrides, y.overrides, USER, x.userId, Deny);
  }

  /** Joining a public channel adds a row that changes nobody's permissions. */
  lemma JoinMarkerIsNeutral(input: EffectiveInput, joiner: string)
    ensures var marker := ChannelOverride(USER, joiner, 0, 0);
      Effective(input.(overrides := input.overrides + [marker])) == Effective(input)
  {
    EffectiveDependsOnSet(input.(overrides := input.overrides + [ChannelOverride(USER, joiner, 0, 0)]), input);
  }

  // ---- the catalogue resolver -----------------------------------------------------------------

  /** `resolvePermissions`, on 64-bit masks. */
  function Resolve(base: bv64, roleAllow: bv64, roleDeny: bv64, userAllow: bv64, userDeny: bv64): bv64 {
    Minus(Plus(Minus(Plus(base, roleAllow), roleDeny), userAllow), userDeny)
  }

  // ---- what the stages mean, flag by flag -----------------------------------------------------

  /** A flag of the catalogue. */
  predicate IsFlag(b: bv64) {
    || b == 0x1 || b == 0x2 || b == 0x4 || b == 0x8 || b == 0x10 || b == 0x20 || b == 0x40 || b == 0x80
    || b == 0x100 || b == 0x200 || b == 0x400 || b == 0x800 || b == 0x1000 || b == 0x2000 || b == 0x4000
    || b == 0x8000 || b == 0x1_0000 || b == 0x8000_0000_0000_0000
  }

  predicate HasFlag(mask: bv64, b: bv64) { mask & b == b }

  function Plus(x: bv64, y: bv64): bv64 { x | y }
  function Minus(x: bv64, y: bv64): bv64 { x & !y }

  lemma BitsPlus(x: bv64, y: bv64, b: bv64)
    requires x & b == b
    ensures (x | y) & b == b && (y | x) & b == b
  {
  }

  lemma FlagOfOr(x: bv64, y: bv64, b: bv64)
    requires IsFlag(b) && (x | y) & b == b
    ensures x & b == b || y & b == b
  {
  }

  lemma BitsMinus(x: bv64, y: bv64, b: bv64)
    requires x & b == b && y & b == 0
    ensures (x & !y) & b == b
  {
  }

  lemma BitsOfMinus(x: bv64, y: bv64, b: bv64)
    requires (x & !y) & b == b
    ensures x & b == b && y & b == 0
  {
  }

  lemma FlagOrNothing(x: bv64, b: bv64)
    requires IsFlag(b)
    ensures b != 0 && (x & b == b || x & b == 0)
  {
  }

  lemma PlusLeft(x: bv64, y: bv64, b: bv64)
    requires HasFlag(x, b)
    ensures HasFlag(Plus(x, y), b)
  {
    BitsPlus(x, y, b);
  }

  lemma PlusRight(x: bv64, y: bv64, b: bv64)
    requires HasFlag(y, b)
    ensures HasFlag(Plus(x, y), b)
  {
    BitsPlus(y, x, b);
  }

  lemma OfPlus(x: bv64, y: bv64, b: bv64)
    requires IsFlag(b) && HasFlag(Plus(x, y), b)
    ensures HasFlag(x, b) || HasFlag(y, b)
  {
    hide IsFlag;
    FlagOfOr(x, y, b);
  }

  lemma IntoMinus(x: bv64, y: bv64, b: bv64)
    requires IsFlag(b) && HasFlag(x, b) && !HasFlag(y, b)
    ensures HasFlag(Minus(x, y), b)
  {
    hide IsFlag;
    FlagOrNothing(y, b);
    BitsMinus(x, y, b);
  }

  lemma OfMinus(x: bv64, y: bv64, b: bv64)
    requires IsFlag(b) && HasFlag(Minus(x, y), b)
    ensures HasFlag(x, b) && !HasFlag(y, b)
  {
    hide IsFlag;
    BitsOfMinus(x, y, b);
    FlagOrNothing(y, b);
  }

  /** One stage: some bits are added, then some are taken away. */
  lemma StageFlag(x: bv64, allow: bv64, deny: bv64, b: bv64)
    requires IsFlag(b)
    ensures HasFlag(Minus(Plus(x, allow), deny), b) <==> !HasFlag(deny, b) && (HasFlag(allow, b) || HasFlag(x, b))
  {
    hide IsFlag, HasFlag, Plus, Minus;
    if HasFlag(Minus(Plus(x, allow), deny), b) {
      OfMinus(Plus(x, allow), deny, b);
      OfPlus(x, allow, b);
    } else if !HasFlag(deny, b) && HasFlag(x, b) {
      PlusLeft(x, allow, b);
      IntoMinus(Plus(x, allow), deny, b);
    } else if !HasFlag(deny, b) && HasFlag(allow, b) {
      PlusRight(x, allow, b);
      IntoMinus(Plus(x, allow), deny, b);
    }
  }

  /** What the order of the stages means: a flag is set exactly when it is not denied to the user
      and is either allowed to the user, or not denied to the role and allowed to the role or
      there from the start. */
  lemma ResolveFlag(base: bv64, roleAllow: bv64, roleDeny: bv64, userAllow: bv64, userDeny: bv64, b: bv64)
    requires IsFlag(b)
    ensures HasFlag(Resolve(base, roleAllow, roleDeny, userAllow, userDeny), b) <==>
      && !HasFlag(userDeny, b)
      && (HasFlag(userAllow, b) || (!HasFlag(roleDeny, b) && (HasFlag(roleAllow, b) || HasFlag(base, b))))
  {
    hide IsFlag, HasFlag, Plus, Minus;
    StageFlag(base, roleAllow, roleDeny, b);
    StageFlag(Minus(Plus(base, roleAllow), roleDeny), userAllow, userDeny, b);
  }

  /** A channel mask as a catalogue mask. */
  function Widen(m: Mask): bv64 { m as bv64 }

  /** The channel fold is the catalogue resolver on the gated base. */
  lemma EffectiveIsResolve(input: EffectiveInput)
    ensures var g := GrantsOf(input); var base := GatedBase(input.role, input.isPrivate, g);
      Widen(Effective(input)) ==
        Resolve(Widen(base), Widen(g.roleAllow), Widen(g.roleDeny), Widen(g.userAllow), Widen(g.userDeny))
  {
    hide FoldMask, Resolve, GrantsOf, GatedBase, Widen;
    var g := GrantsOf(input);
    WidenFold(GatedBase(input.role, input.isPrivate, g), g);
  }

  lemma WidenFold(base: Mask, g: Grants)
    ensures Widen(FoldMask(base, g)) ==
      Resolve(Widen(base), Widen(g.roleAllow), Widen(g.roleDeny), Widen(g.userAllow), Widen(g.userDeny))
  {
  }

  lemma WidenBits(m: bv32, b: bv32)
    requires m & b == b
    ensures (m as bv64) & (b as bv64) == b as bv64
  {
  }

  lemma NarrowBits(m: bv32, b: bv32)
    requires (m as bv64) & (b as bv64) == b as bv64
    ensures m & b == b
  {
  }

  lemma WidenFlag(mask: Mask, b: Mask)
    ensures HasFlag(Widen(mask), Widen(b)) <==> Has(mask, b)
  {
    if Has(mask, b) {
      WidenBits(mask, b);
    } else if HasFlag(Widen(mask), Widen(b)) {
      NarrowBits(mask, b);
    }
  }

  /** A flag that channels enforce. */
  predicate IsPermission(b: Mask) {
    || b == READ || b == WRITE_MESSAGE || b == DELETE_OWN_MESSAGE || b == DELETE_ANY_MESSAGE
    || b == MANAGE_MEMBERS || b == MANAGE_CHANNEL || b == UPLOAD_ATTACHMENT || b == BYPASS_SLOWMODE
  }

  lemma PermissionIsFlag(b: Mask)
    requires IsPermission(b)
    ensures IsFlag(Widen(b))
  {
  }

  /** The same of the channel fold. */
  lemma FoldFlag(base: Mask, g: Grants, b: Mask)
    requires IsPermission(b)
    ensures Has(FoldMask(base, g), b) <==>
      !Has(g.userDeny, b) && (Has(g.userAllow, b) || (!Has(g.roleDeny, b) && (Has(g.roleAllow, b) || Has(base, b))))
  {
    hide IsPermission, IsFlag, Has, HasFlag, FoldMask, Resolve, Widen;
    PermissionIsFlag(b);
    WidenFold(base, g);
    ResolveFlag(Widen(base), Widen(g.roleAllow), Widen(g.roleDeny), Widen(g.userAllow), Widen(g.userDeny), Widen(b));
    WidenFlag(FoldMask(base, g), b);
    WidenFlag(base, b);
    WidenFlag(g.roleAllow, b);
    WidenFlag(g.roleDeny, b);
    WidenFlag(g.userAllow, b);
    WidenFlag(g.userDeny, b);
  }

  // ---- what the overrides mean ----------------------------------------------------------------

  /** Some override for the principal allows the permission. */
  ghost predicate AllowedBy(os: seq<ChannelOverride>, t: PrincipalType, id: string, b: Mask) {
    exists o :: o in os && o.principalType == t && o.principalId == id && Has(o.allowMask, b)
  }

  ghost predicate DeniedBy(os: seq<ChannelOverride>, t: PrincipalType, id: string, b: Mask) {
    exists o :: o in os && o.principalType == t && o.principalId == id && Has(o.denyMask, b)
  }

  /** What the fold starts from has the permission: the baseline of the role, which counts for
      the owner, in a public channel, and for whom some override allows READ. */
  ghost predicate BaseHas(input: EffectiveInput, b: Mask) {
    var role := RoleName(input.role);
    && Has(RoleBaseline(input.role), b)
    && (input.role == OWNER || !input.isPrivate
        || AllowedBy(input.overrides, USER, input.userId, READ) || AllowedBy(input.overrides, ROLE, role, READ))
  }

  lemma OrHas(x: Mask, y: Mask, b: Mask)
    requires IsPermission(b)
    ensures Has(Or(x, y), b) <==> Has(x, b) || Has(y, b)
    ensures !Has(0, b)
  {
  }

  ghost predicate GivesOn(o: ChannelOverride, t: PrincipalType, id: string, side: Side, b: Mask) {
    Applies(o, t, id) && Has(MaskOf(o, side), b)
  }

  ghost predicate SomeGives(os: seq<ChannelOverride>, t: PrincipalType, id: string, side: Side, b: Mask) {
    exists o :: o in os && GivesOn(o, t, id, side, b)
  }

  lemma SomeGivesCons(os: seq<ChannelOverride>, t: PrincipalType, id: string, side: Side, b: Mask)
    requires os != []
    ensures SomeGives(os, t, id, side, b) <==> GivesOn(os[0], t, id, side, b) || SomeGives(os[1..], t, id, side, b)
  {
    hide GivesOn;
    assert forall x :: x in os <==> x == os[0] || x in os[1..];
  }

  lemma {:induction false} UnionOfSide(os: seq<ChannelOverride>, t: PrincipalType, id: string, side: Side, b: Mask)
    requires IsPermission(b)
    ensures Has(UnionOf(os, t, id, side), b) <==> SomeGives(os, t, id, side, b)
  {
    hide Has, IsPermission, Or, MaskOf, Applies, SomeGives;
    OrHas(0, 0, b);
    if os == [] {
      NobodyGives(t, id, side, b);
    } else {
      UnionOfSide(os[1..], t, id, side, b);
      SomeGivesCons(os, t, id, side, b);
      OrHas(if Applies(os[0], t, id) then MaskOf(os[0], side) else 0, UnionOf(os[1..], t, id, side), b);
    }
  }

  lemma NobodyGives(t: PrincipalType, id: string, side: Side, b: Mask)
    ensures !SomeGives([], t, id, side, b)
  {
  }

  lemma UnionHas(os: seq<ChannelOverride>, t: PrincipalType, id: string, b: Mask)
    requires IsPermission(b)
    ensures Has(UnionOf(os, t, id, Allow), b) <==> AllowedBy(os, t, id, b)
    ensures Has(UnionOf(os, t, id, Deny), b) <==> DeniedBy(os, t, id, b)
  {
    hide Has, IsPermission, UnionOf;
    UnionOfSide(os, t, id, Allow, b);
    UnionOfSide(os, t, id, Deny, b);
    forall o: ChannelOverride
      ensures GivesOn(o, t, id, Allow, b) <==> o.principalType == t && o.principalId == id && Has(o.allowMask, b)
      ensures GivesOn(o, t, id, Deny, b) <==> o.principalType == t && o.principalId == id && Has(o.denyMask, b)
    {
    }
  }

  /** The base is gated as the overrides say. */
  lemma GatedHas(input: EffectiveInput, b: Mask)
    requires IsPermission(b)
    ensures Has(GatedBase(input.role, input.isPrivate, GrantsOf(input)), b) <==> BaseHas(input, b)
  {
    hide AllowedBy, DeniedBy, UnionOf, RoleBaseline, IsPermission;
    ReadIsPermission();
    UnionHas(input.overrides, ROLE, RoleName(input.role), READ);
    UnionHas(input.overrides, USER, input.userId, READ);
    OrHas(GrantsOf(input).userAllow, GrantsOf(input).roleAllow, READ);
    OrHas(0, 0, b);
  }

  lemma ReadIsPermission()
    ensures IsPermission(READ)
  {
  }

  /** What a permission takes, read off the overrides: none for the user denies it, and either one
      for the user allows it, or none for the role denies it and one for the role, or the base,
      has it. */
  lemma EffectiveHasIff(input: EffectiveInput, b: Mask)
    requires IsPermission(b)
    ensures var os, role := input.overrides, RoleName(input.role);
      Has(Effective(input), b) <==>
      && !DeniedBy(os, USER, input.userId, b)
      && (|| AllowedBy(os, USER, input.userId, b)
          || (!DeniedBy(os, ROLE, role, b) && (AllowedBy(os, ROLE, role, b) || BaseHas(input, b))))
  {
    hide Has, AllowedBy, DeniedBy, BaseHas, FoldMask, GatedBase, UnionOf, IsPermission;
    UnionHas(input.overrides, ROLE, RoleName(input.role), b);
    UnionHas(input.overrides, USER, input.userId, b);
    GatedHas(input, b);
    FoldFlag(GatedBase(input.role, input.isPrivate, GrantsOf(input)), GrantsOf(input), b);
  }

  /** Every role has a name of its own, and of each permission the baseline has it from one role
      upward. */
  lemma RolesRanked(a: WorkspaceRole, b: WorkspaceRole, p: Mask)
    requires IsPermission(p)
    ensures RoleName(a) == RoleName(b) <==> a == b
    ensures Has(RoleBaseline(a), p) <==> Rank(a) >= Rank(LowestWith(p))
  {
  }

  /** The lowest role that a permission comes with. */
  function LowestWith(p: Mask): WorkspaceRole {
    if p == READ || p == WRITE_MESSAGE then GUEST
    else if p == DELETE_OWN_MESSAGE || p == UPLOAD_ATTACHMENT then MEMBER
    else if p == DELETE_ANY_MESSAGE || p == BYPASS_SLOWMODE then MODERATOR
    else ADMIN
  }

  function Rank(role: WorkspaceRole): nat {
    match role
    case OWNER => 4
    case ADMIN => 3
    case MODERATOR => 2
    case MEMBER => 1
    case GUEST => 0
  }

  // ---- private channels and visibility ----------------------------------------------------------

  /** Without a READ grant a private channel gives others than the owner only what is granted
      outright, and never READ. */
  lemma PrivateGate(input: EffectiveInput)
    requires input.isPrivate && input.role != OWNER
    requires var g := GrantsOf(input); (g.userAllow | g.roleAllow) & READ == 0
    ensures var g := GrantsOf(input);
      Effective(input) & !(g.userAllow | g.roleAllow) == 0 && !Has(Effective(input), READ)
  {
  }

  /** The visibility formula the unread service documents (unread.service.ts:147-150). */
  predicate DocumentedVisible(isPrivate: bool, g: Grants) {
    var hasExplicitRead := (g.userAllow | g.roleAllow) & READ != 0;
    var base := if isPrivate then (if hasExplicitRead then READ else 0) else READ;
    ((((base | (g.roleAllow & READ)) & !(g.roleDeny & READ)) | (g.userAllow & READ)) & !(g.userDeny & READ)) != 0
  }

  /** The formula the queries run, `readBitVisibleSql`: a public channel is always visible. */
  predicate QueryVisible(isPrivate: bool, g: Grants) {
    !isPrivate || DocumentedVisible(true, g)
  }

  /** For everyone but the owner the documented formula is the READ bit of `effective`. */
  lemma DocumentedIsReadBit(input: EffectiveInput)
    requires input.role != OWNER
    ensures DocumentedVisible(input.isPrivate, GrantsOf(input)) <==> Has(Effective(input), READ)
  {
    ReadBitOf(input.role, input.isPrivate, GrantsOf(input));
  }

  lemma ReadBitOf(role: WorkspaceRole, isPrivate: bool, g: Grants)
    requires role != OWNER
    ensures DocumentedVisible(isPrivate, g) <==> Has(FoldMask(GatedBase(role, isPrivate, g), g), READ)
  {
  }

  /** Where the queries and `effective` part: a public channel whose READ is taken away, and
      an owner's private channel without any READ override. */
  predicate QueryDiffers(role: WorkspaceRole, isPrivate: bool, g: Grants) {
    if !isPrivate then Has(g.userDeny, READ) || (Has(g.roleDeny, READ) && !Has(g.userAllow, READ))
    else role == OWNER && !Has(g.userAllow | g.roleAllow | g.roleDeny | g.userDeny, READ)
  }

  lemma QueryAgreesIff(input: EffectiveInput)
    ensures (QueryVisible(input.isPrivate, GrantsOf(input)) <==> Has(Effective(input), READ)) <==>
      !QueryDiffers(input.role, input.isPrivate, GrantsOf(input))
  {
    QueryReadBit(input.role, input.isPrivate, GrantsOf(input));
  }

  /** The queries show a member a public channel whose READ their role is denied, and hide from
      an owner a private channel without overrides. */
  lemma QueryDiffersTwice()
    ensures var denied := EffectiveInput(MEMBER, false, "u", [ChannelOverride(ROLE, "MEMBER", 0, READ)]);
      QueryVisible(false, GrantsOf(denied)) && !Has(Effective(denied), READ)
    ensures var owned := EffectiveInput(OWNER, true, "u", []);
      !QueryVisible(true, GrantsOf(owned)) && Has(Effective(owned), READ)
  {
    var denied := [ChannelOverride(ROLE, "MEMBER", 0, READ)];
    assert denied[1..] == [];
    OneUnion(denied[0], ROLE, "MEMBER");
    OneUnion(denied[0], USER, "u");
  }

  lemma OneUnion(o: ChannelOverride, t: PrincipalType, id: string)
    ensures UnionOf([o], t, id, Allow) == if Applies(o, t, id) then o.allowMask else 0
    ensures UnionOf([o], t, id, Deny) == if Applies(o, t, id) then o.denyMask else 0
  {
    assert [o][1..] == [];
    assert UnionOf([], t, id, Allow) == 0 && UnionOf([], t, id, Deny) == 0;
  }

  lemma QueryReadBit(role: WorkspaceRole, isPrivate: bool, g: Grants)
    ensures (QueryVisible(isPrivate, g) <==> Has(FoldMask(GatedBase(role, isPrivate, g), g), READ)) <==>
      !QueryDiffers(role, isPrivate, g)
  {
  }

  /** The channel list shows a private channel to its owner and to whoever an override allows
      anything at all. */
  predicate Listed(role: WorkspaceRole, isPrivate: bool, g: Grants) {
    !isPrivate || role == OWNER || g.userAllow | g.roleAllow != 0
  }

  predicate ReadDenied(g: Grants) {
    Has(g.userDeny, READ) || (Has(g.roleDeny, READ) && !Has(g.userAllow, READ))
  }

  /** The list and `effective` part exactly where READ is denied to one who is listed, or the
      override that lists a private channel does not allow READ. */
  lemma ListAgreesIff(input: EffectiveInput)
    ensures var g := GrantsOf(input);
      (Listed(input.role, input.isPrivate, g) <==> Has(Effective(input), READ)) <==>
        !(Listed(input.role, input.isPrivate, g)
          && (ReadDenied(g) || (input.isPrivate && input.role != OWNER && !Has(g.userAllow | g.roleAllow, READ))))
  {
    ListReadBit(input.role, input.isPrivate, GrantsOf(input));
  }

  /** Any allowed bit lists a private channel, such as the one that lifts slow mode. */
  lemma ListDiffers()
    ensures var slow := EffectiveInput(MEMBER, true, "u", [ChannelOverride(USER, "u", BYPASS_SLOWMODE, 0)]);
      Listed(MEMBER, true, GrantsOf(slow)) && !Has(Effective(slow), READ)
  {
    var o := ChannelOverride(USER, "u", BYPASS_SLOWMODE, 0);
    OneUnion(o, USER, "u");
    OneUnion(o, ROLE, "MEMBER");
  }

  lemma ListReadBit(role: WorkspaceRole, isPrivate: bool, g: Grants)
    ensures Has(FoldMask(GatedBase(role, isPrivate, g), g), READ) <==>
      Listed(role, isPrivate, g) && !ReadDenied(g)
        && (isPrivate && role != OWNER ==> Has(g.userAllow | g.roleAllow, READ))
  {
  }

  // ---- storage -------------------------------------------------------------------------------------

  const TWO63: int := 0x8000_0000_0000_0000
  const TWO64: int := 0x1_0000_0000_0000_0000

  /** `BigInt.asIntN(64, mask)` */
  function ToStorage(mask: int): (r: int)
    ensures -TWO63 <= r < TWO63
  {
    var m := mask % TWO64;
    if m < TWO63 then m else m - TWO64
  }

  /** `BigInt.asUintN(64, stored)` */
  function FromStorage(stored: int): (r: int)
    ensures 0 <= r < TWO64
  {
    stored % TWO64
  }

  /** The storage pair keeps a mask exactly when it fits 64 unsigned bits. */
  lemma StorageRoundTrip(mask: int)
    ensures FromStorage(ToStorage(mask)) == mask <==> 0 <= mask < TWO64
  {
    var m := mask % TWO64;
    if m >= TWO63 {
      assert (m - TWO64) % TWO64 == m;
    }
  }
}
