/** The script verification flags and the mask they combine into. */
module VerifyFlags {
  import opened JavaTypes

  /** The closed set of script verification rules. */
  datatype VerifyFlag =
    | None                      // no special handling
    | P2SH                      // evaluate P2SH subscripts (BIP16)
    | StrictEnc                 // defined hash types and public-key encodings
    | DerSig                    // strict DER signatures (BIP62 rule 1, BIP66)
    | LowS                      // S at most half the curve order (BIP62 rule 5)
    | NullDummy                 // empty CHECKMULTISIG dummy (BIP62 rule 7)
    | SigPushOnly               // push-only scriptSig (BIP62 rule 2)
    | MinimalData               // minimal pushes and numbers (BIP62 rules 3, 4)
    | DiscourageUpgradableNops  // executing NOP1-NOP10 fails
    | CleanStack                // exactly one stack element remains (BIP62 rule 6)
    | CheckLockTimeVerify       // CHECKLOCKTIMEVERIFY (BIP65)

  /** The bit a flag contributes to a mask: 0 for None, otherwise one bit
      among the low ten. */
  function Value(flag: VerifyFlag): (v: bv32)
    ensures v == 0 <==> flag == None
    ensures v & (v - 1) == 0
    ensures v < 1 << 10
  {
    match flag
    case None => 0
    case P2SH => 1 << 0
    case StrictEnc => 1 << 1
    case DerSig => 1 << 2
    case LowS => 1 << 3
    case NullDummy => 1 << 4
    case SigPushOnly => 1 << 5
    case MinimalData => 1 << 6
    case DiscourageUpgradableNops => 1 << 7
    case CleanStack => 1 << 8
    case CheckLockTimeVerify => 1 << 9
  }

  /** The flag whose value is bit `k`. */
  function FlagAt(k: nat): (flag: VerifyFlag)
    requires k < 10
    ensures flag != None
    ensures Value(flag) == (1 as bv32) << k
  {
    [P2SH, StrictEnc, DerSig, LowS, NullDummy, SigPushOnly, MinimalData,
     DiscourageUpgradableNops, CleanStack, CheckLockTimeVerify][k]
  }

  /** The bit position of a flag other than None. */
  function BitIndex(flag: VerifyFlag): (k: nat)
    requires flag != None
    ensures k < 10 && FlagAt(k) == flag
  {
    match flag
    case P2SH => 0
    case StrictEnc => 1
    case DerSig => 2
    case LowS => 3
    case NullDummy => 4
    case SigPushOnly => 5
    case MinimalData => 6
    case DiscourageUpgradableNops => 7
    case CleanStack => 8
    case CheckLockTimeVerify => 9
  }

  /** Distinct flags never share a bit. */
  lemma ValuesDisjoint(f: VerifyFlag, g: VerifyFlag)
    requires f != g
    ensures Value(f) & Value(g) == 0
    ensures Value(f) != Value(g)
  {
  }

  /** Bit `k` of a flag's value is set exactly when that flag is the one at `k`. */
  lemma ValueBit(flag: VerifyFlag, k: nat)
    requires k < 32
    ensures Value(flag) & ((1 as bv32) << k) != 0 <==> k < 10 && FlagAt(k) == flag
  {
  }

  /** Some member of a non-empty set, fixed once so that the fold and the
      lemmas about it agree on which member comes first. */
  ghost function Pick(flags: set<VerifyFlag>): (f: VerifyFlag)
    requires flags != {}
    ensures f in flags
  {
    var f :| f in flags; f
  }

  /** The mask of a set of flags: the bitwise OR of their values. The order in
      which members are taken is arbitrary (see MaskRemove). */
  ghost function Mask(flags: set<VerifyFlag>): (m: bv32)
    ensures m < 1 << 10
    decreases flags
  {
    if flags == {} then 0
    else
      var f := Pick(flags);
      Value(f) | Mask(flags - {f})
  }

  /** Taking any member first gives the same mask: the fold does not depend on
      the order in which the set is visited. */
  lemma {:induction false} MaskRemove(flags: set<VerifyFlag>, f: VerifyFlag)
    requires f in flags
    ensures Mask(flags) == Value(f) | Mask(flags - {f})
    decreases flags
  {
    var g := Pick(flags);
    if g != f {
      var rest := flags - {f} - {g};
      assert flags - {g} - {f} == rest;
      MaskRemove(flags - {g}, f);
      MaskRemove(flags - {f}, g);
    }
  }

  /** The empty set and the set holding only None both have mask 0. */
  lemma MaskOfNone()
    ensures Mask({}) == 0
    ensures Mask({None}) == 0
  {
  }

  /** Adding a flag ORs its value into the mask; adding a flag already in the
      set leaves the mask unchanged. */
  lemma {:induction false} MaskInsert(flags: set<VerifyFlag>, f: VerifyFlag)
    ensures Mask(flags + {f}) == Mask(flags) | Value(f)
    ensures f in flags ==> Mask(flags + {f}) == Mask(flags)
  {
    if f in flags {
      assert flags + {f} == flags;
      MaskRemove(flags, f);
    } else {
      assert (flags + {f}) - {f} == flags;
      MaskRemove(flags + {f}, f);
    }
  }

  /** The mask of a union is the OR of the masks. */
  lemma {:induction false} MaskUnion(s: set<VerifyFlag>, t: set<VerifyFlag>)
    ensures Mask(s + t) == Mask(s) | Mask(t)
    decreases s
  {
    if s == {} {
      assert s + t == t;
    } else {
      var f := Pick(s);
      var u := (s - {f}) + t;
      assert s + t == u + {f};
      MaskUnion(s - {f}, t);
      MaskInsert(u, f);
      MaskRemove(s, f);
    }
  }

  /** Bit `k` of the mask is set exactly when the flag at bit `k` is in the
      set; in particular no bit at or above 10 is ever set. */
  lemma {:induction false} MaskBit(flags: set<VerifyFlag>, k: nat)
    requires k < 32
    ensures Mask(flags) & ((1 as bv32) << k) != 0 <==> k < 10 && FlagAt(k) in flags
    decreases flags
  {
    if flags != {} {
      var f := Pick(flags);
      MaskRemove(flags, f);
      MaskBit(flags - {f}, k);
      ValueBit(f, k);
    }
  }

  /** A flag other than None is in the set exactly when its bit is in the mask. */
  lemma {:induction false} MaskMember(flags: set<VerifyFlag>, f: VerifyFlag)
    requires f != None
    ensures Mask(flags) & Value(f) != 0 <==> f in flags
  {
    MaskBit(flags, BitIndex(f));
  }

  /** The mask determines the set, up to the presence of None. */
  lemma MaskInjective(s: set<VerifyFlag>, t: set<VerifyFlag>)
    requires Mask(s) == Mask(t)
    ensures s - {None} == t - {None}
  {
    forall f | f != None
      ensures f in s <==> f in t
    {
      MaskMember(s, f);
      MaskMember(t, f);
    }
  }

  /** The rules every new block must satisfy. */
  const MandatoryVerifyFlags: set<VerifyFlag> := {P2SH}

  /** The rules standard transactions comply with. */
  const StandardVerifyFlags: set<VerifyFlag> :=
    {P2SH, DerSig, StrictEnc, MinimalData, NullDummy,
     DiscourageUpgradableNops, CleanStack, CheckLockTimeVerify}

  /** The mandatory set is {P2SH}, its mask is 1, and it lies inside the
      standard set. */
  lemma MandatoryFlags()
    ensures MandatoryVerifyFlags == {P2SH}
    ensures Mask(MandatoryVerifyFlags) == 1
    ensures MandatoryVerifyFlags <= StandardVerifyFlags
  {
  }

  /** The standard set leaves out None, LowS and SigPushOnly, and its mask is
      983 = 1|2|4|16|64|128|256|512. */
  lemma StandardFlags()
    ensures None !in StandardVerifyFlags
    ensures LowS !in StandardVerifyFlags && SigPushOnly !in StandardVerifyFlags
    ensures Mask(StandardVerifyFlags) == 983
  {
    var s0: set<VerifyFlag> := {};
    MaskInsert(s0, P2SH);
    var s1 := s0 + {P2SH};
    MaskInsert(s1, DerSig);
    var s2 := s1 + {DerSig};
    MaskInsert(s2, StrictEnc);
    var s3 := s2 + {StrictEnc};
    MaskInsert(s3, MinimalData);
    var s4 := s3 + {MinimalData};
    MaskInsert(s4, NullDummy);
    var s5 := s4 + {NullDummy};
    MaskInsert(s5, DiscourageUpgradableNops);
    var s6 := s5 + {DiscourageUpgradableNops};
    MaskInsert(s6, CleanStack);
    var s7 := s6 + {CleanStack};
    MaskInsert(s7, CheckLockTimeVerify);
    assert s7 + {CheckLockTimeVerify} == StandardVerifyFlags;
  }

  /** Merges a set of flags into one Java `int` by OR-ing the flags' values,
      visiting the members in whatever order the set yields them. */
  method GetValueOf(flags: set<VerifyFlag>) returns (mergedValue: int32)
    ensures mergedValue as int == Mask(flags) as int
    ensures 0 <= mergedValue < 1024
  {
    var merged: bv32 := 0;
    var rest := flags;
    while rest != {}
      invariant merged | Mask(rest) == Mask(flags)
      decreases rest
    {
      var f :| f in rest;
      MaskRemove(rest, f);
      merged := merged | Value(f);
      rest := rest - {f};
    }
    mergedValue := merged as int as int32;
  }
}
