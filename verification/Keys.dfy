/** Passwords and key slots: a password wraps the master key into one of eight 88-byte
    slots; opening tries the slots in order. */
module Keys {
  import opened Bytes
  import opened Crypto
  import opened Paths
  import opened StoreModel
  import opened Os
  import opened Store

  /** A C string ends at its first NUL; the key derivation sees no more of the password. */
  function CString(password: bytes): bytes {
    password[..Find(password, 0, 0)]
  }

  function Kek(cs: Suite, password: bytes, salt: bytes, kdf: Kdf): bytes {
    cs.derive(CString(password), salt, kdf)
  }

  function Wrap(cs: Suite, master: bytes, password: bytes, kdf: Kdf, salt: bytes, nonce: bytes): KeySlot {
    KeySlot(salt, nonce + cs.lock(Kek(cs, password, salt, kdf), nonce, master))
  }

  function Unwrap(cs: Suite, s: KeySlot, password: bytes, kdf: Kdf): Option<bytes>
    requires s.Sized()
  {
    if s.Empty() then None
    else cs.unlock(Kek(cs, password, s.salt, kdf), s.wrapped[..NONCE], s.wrapped[NONCE..])
  }

  /** The password opens its own slot unless the random salt happens to be the mark of an empty one. */
  lemma WrapThenUnwrap(cs: Suite, master: bytes, password: bytes, kdf: Kdf, salt: bytes, nonce: bytes)
    requires |master| == KEY && |salt| == SALT && |nonce| == NONCE
    ensures var s := Wrap(cs, master, password, kdf, salt, nonce);
            s.Sized() && (Unwrap(cs, s, password, kdf) == Some(master) <==> salt != Zeros(SALT))
  {
    var s := Wrap(cs, master, password, kdf, salt, nonce);
    assert s.wrapped[..NONCE] == nonce;
    assert s.wrapped[NONCE..] == cs.lock(Kek(cs, password, salt, kdf), nonce, master);
  }

  /** Where the parts of a key slot stand: salt, nonce, and the wrapped master key, sealed under
      the key derived from the password up to its first NUL. */
  lemma SlotLayout(cs: Suite, master: bytes, password: bytes, rest: bytes, kdf: Kdf, salt: bytes, nonce: bytes)
    requires |master| == KEY && |salt| == SALT && |nonce| == NONCE && 0 !in password
    ensures var b := Wrap(cs, master, password, kdf, salt, nonce).Content();
            && |b| == 88 && b[0..16] == salt && b[16..40] == nonce
            && b[40..88] == cs.lock(cs.derive(password, salt, kdf), nonce, master)
    ensures Wrap(cs, master, password + [0] + rest, kdf, salt, nonce) == Wrap(cs, master, password, kdf, salt, nonce)
  {
    FindUnique(password, 0, 0, |password|);
    FindUnique(password + [0] + rest, 0, 0, |password|);
    assert password[..|password|] == password == (password + [0] + rest)[..|password|];
  }

  function SlotAt(f: bytes, i: nat): (s: KeySlot)
    requires |f| >= DATA_START && i < NUM_SLOTS
    ensures s.Sized()
  {
    SlotOf(f[SlotOff(i)..SlotOff(i) + SLOT_SIZE])
  }

  /** `Pack::open`'s search: the first slot from i on that the password opens, and the key in it. */
  function Unlock(cs: Suite, kdf: Kdf, f: bytes, password: bytes, i: nat): Option<(nat, bytes)>
    requires |f| >= DATA_START && i <= NUM_SLOTS
    decreases NUM_SLOTS - i
  {
    if i == NUM_SLOTS then None
    else
      match Unwrap(cs, SlotAt(f, i), password, kdf)
      case Some(m) => Some((i, m))
      case None => Unlock(cs, kdf, f, password, i + 1)
  }

  /** Some slot accepts the password. */
  ghost predicate Accepts(cs: Suite, kdf: Kdf, f: bytes, password: bytes, i: nat)
    requires |f| >= DATA_START && i < NUM_SLOTS
  {
    Unwrap(cs, SlotAt(f, i), password, kdf).Some?
  }

  lemma {:induction false} UnlockFinds(cs: Suite, kdf: Kdf, f: bytes, password: bytes, i: nat)
    requires |f| >= DATA_START && i <= NUM_SLOTS
    ensures var r := Unlock(cs, kdf, f, password, i);
            && (r.Some? <==> exists j: nat :: i <= j < NUM_SLOTS && Accepts(cs, kdf, f, password, j))
            && (r.Some? ==> i <= r.value.0 < NUM_SLOTS
                            && Unwrap(cs, SlotAt(f, r.value.0), password, kdf) == Some(r.value.1))
    decreases NUM_SLOTS - i
  {
    hide Unwrap, SlotAt;
    if i < NUM_SLOTS {
      UnlockFinds(cs, kdf, f, password, i + 1);
      if Unwrap(cs, SlotAt(f, i), password, kdf).Some? {
        assert Accepts(cs, kdf, f, password, i);
      }
    }
  }

  lemma OtherSlots(f: bytes, i: nat, content: bytes)
    requires |f| >= DATA_START && i < NUM_SLOTS && |content| == SLOT_SIZE
    ensures var f' := Splice(f, SlotOff(i), content);
            && |f'| == |f| && SlotAt(f', i).Content() == content
            && forall j: nat | j < NUM_SLOTS && j != i :: SlotAt(f', j) == SlotAt(f, j)
  {
    hide Splice;
    SpliceReads(f, SlotOff(i), content);
    forall j: nat | j < NUM_SLOTS && j != i
      ensures SlotAt(Splice(f, SlotOff(i), content), j) == SlotAt(f, j)
    {
      SpliceKeeps(f, SlotOff(i), content, SlotOff(j), SlotOff(j) + SLOT_SIZE);
    }
  }

  lemma SameContent(a: KeySlot, b: KeySlot)
    requires a.Sized() && b.Sized() && a.Content() == b.Content()
    ensures a == b
  {
    assert a.Content()[..SALT] == a.salt && a.Content()[SALT..] == a.wrapped;
    assert b.Content()[..SALT] == b.salt && b.Content()[SALT..] == b.wrapped;
  }

  /** Rekeying slot i changes those 88 bytes and nothing else: header, superblocks, data and
      the other slots are the same. Afterwards a password opens the pack exactly if the new
      slot accepts it or one of the other slots did before; the new password does, and gets
      the master key, provided the slots it opens agree on it. */
  lemma RekeyEffect(cs: Suite, kdf: Kdf, f: bytes, i: nat, master: bytes, fresh_: bytes, salt: bytes, nonce: bytes,
                    password: bytes)
    requires |f| >= DATA_START && i < NUM_SLOTS
    requires |master| == KEY && |salt| == SALT && |nonce| == NONCE && salt != Zeros(SALT)
    ensures var s := Wrap(cs, master, fresh_, kdf, salt, nonce);
            var f' := Splice(f, SlotOff(i), s.Content());
            && s.Sized() && |f'| == |f| && ReadHeader(f') == ReadHeader(f)
            && Block(f', A) == Block(f, A) && Block(f', B) == Block(f, B) && f'[DATA_START..] == f[DATA_START..]
            && (forall j: nat | j < NUM_SLOTS && j != i :: SlotAt(f', j) == SlotAt(f, j))
            && (Unlock(cs, kdf, f', password, 0).Some? <==>
                  || Unwrap(cs, s, password, kdf).Some?
                  || exists j: nat :: j < NUM_SLOTS && j != i && Accepts(cs, kdf, f, password, j))
            && Unlock(cs, kdf, f', fresh_, 0).Some?
            && ((forall j: nat | j < NUM_SLOTS && j != i && Accepts(cs, kdf, f, fresh_, j) ::
                   Unwrap(cs, SlotAt(f, j), fresh_, kdf) == Some(master))
                ==> Unlock(cs, kdf, f', fresh_, 0).value.1 == master)
  {
    hide Unwrap, Splice, ReadHeader, Unlock, SlotAt, Wrap;
    var s := Wrap(cs, master, fresh_, kdf, salt, nonce);
    WrapThenUnwrap(cs, master, fresh_, kdf, salt, nonce);
    var f' := Splice(f, SlotOff(i), s.Content());
    SlotSplice(f, i, s.Content());
    OtherSlots(f, i, s.Content());
    SameContent(SlotAt(f', i), s);
    UnlockFinds(cs, kdf, f', password, 0);
    UnlockFinds(cs, kdf, f', fresh_, 0);
    assert forall j: nat | j < NUM_SLOTS && j != i ::
        Accepts(cs, kdf, f', password, j) <==> Accepts(cs, kdf, f, password, j);
    assert Accepts(cs, kdf, f', password, i) <==> Unwrap(cs, s, password, kdf).Some?;
    assert Accepts(cs, kdf, f', fresh_, i);
    var j := Unlock(cs, kdf, f', fresh_, 0).value.0;
    assert j != i ==> Accepts(cs, kdf, f, fresh_, j);
  }

  // ---- the slots of a file ----

  /** Every slot that accepts the password, under the cost in the file's header, holds `master`. */
  ghost predicate KeysAgree(cs: Suite, f: bytes, password: bytes, master: bytes) {
    |f| >= DATA_START && ReadHeader(f).Some? ==>
      forall j: nat | j < NUM_SLOTS && Accepts(cs, ReadHeader(f).value, f, password, j) ::
        Unwrap(cs, SlotAt(f, j), password, ReadHeader(f).value) == Some(master)
  }

  /** Rekeying leaves the slots that accept the new password agreeing on the master key, if they
      did; and unless the salt is all zeros there is one, so that the pack opens with it. */
  lemma RekeyAgrees(cs: Suite, kdf: Kdf, f: bytes, i: nat, master: bytes, password: bytes, salt: bytes, nonce: bytes)
    requires |f| >= DATA_START && i < NUM_SLOTS && ReadHeader(f) == Some(kdf) && KeysAgree(cs, f, password, master)
    requires |master| == KEY && |salt| == SALT && |nonce| == NONCE
    ensures var s := Wrap(cs, master, password, kdf, salt, nonce);
            s.Sized()
            && var f' := Splice(f, SlotOff(i), s.Content());
            && |f'| == |f| && ReadHeader(f') == Some(kdf) && KeysAgree(cs, f', password, master)
            && var r := Unlock(cs, kdf, f', password, 0);
            && (r.Some? ==> r.value.1 == master)
            && (salt != Zeros(SALT) ==> r.Some?)
  {
    hide Unwrap, Splice, ReadHeader, Unlock, SlotAt, Wrap;
    var s := Wrap(cs, master, password, kdf, salt, nonce);
    WrapThenUnwrap(cs, master, password, kdf, salt, nonce);
    var f' := Splice(f, SlotOff(i), s.Content());
    SlotSplice(f, i, s.Content());
    OtherSlots(f, i, s.Content());
    SameContent(SlotAt(f', i), s);
    if salt == Zeros(SALT) {
      SaltOfWrap(cs, master, password, kdf, salt, nonce);
      assert Unwrap(cs, s, password, kdf).None? by { EmptyUnwraps(cs, s, password, kdf); }
    }
    forall j: nat | j < NUM_SLOTS && Accepts(cs, kdf, f', password, j)
      ensures Unwrap(cs, SlotAt(f', j), password, kdf) == Some(master)
    {
      assert j != i ==> Accepts(cs, kdf, f, password, j);
    }
    UnlockFinds(cs, kdf, f', password, 0);
    var r := Unlock(cs, kdf, f', password, 0);
    assert r.Some? ==> Accepts(cs, kdf, f', password, r.value.0);
    assert salt != Zeros(SALT) ==> Accepts(cs, kdf, f', password, i);
  }

  lemma EmptyUnwraps(cs: Suite, s: KeySlot, password: bytes, kdf: Kdf)
    requires s.Sized() && s.Empty()
    ensures Unwrap(cs, s, password, kdf).None?
  {
  }

  /** The first slot wraps the key under the password; the others are as they were zeroed. */
  ghost predicate FreshSlots(cs: Suite, f: bytes, kdf: Kdf, master: bytes, password: bytes, salt: bytes, nonce: bytes) {
    && |f| >= DATA_START && ReadHeader(f) == Some(kdf)
    && SlotAt(f, 0) == Wrap(cs, master, password, kdf, salt, nonce)
    && forall j: nat | 0 < j < NUM_SLOTS :: SlotAt(f, j).Content() == Zeros(SLOT_SIZE)
  }

  lemma FreshHeader(cs: Suite, f: bytes, kdf: Kdf, master: bytes, password: bytes, salt: bytes, nonce: bytes)
    requires FreshSlots(cs, f, kdf, master, password, salt, nonce)
    ensures ReadHeader(f) == Some(kdf) && |f| >= DATA_START
  {
    hide ReadHeader, SlotAt, Wrap;
  }

  /** What creating a pack and filling its first slot leaves in the file. */
  lemma CreatedSlots(cs: Suite, master: bytes, password: bytes, kdf: Kdf, nonceA: bytes, nonceB: bytes, salt: bytes,
                     nonce: bytes)
    requires |master| == KEY && |salt| == SALT && |nonce| == |nonceA| == |nonceB| == NONCE && ValidKdf(kdf)
    ensures var s := Wrap(cs, master, password, kdf, salt, nonce);
            && s.Sized()
            && FreshSlots(cs, Splice(CreatedFile(cs, master, kdf, nonceA, nonceB), SlotOff(0), s.Content()), kdf,
                          master, password, salt, nonce)
  {
    hide Splice, ReadHeader, SlotAt, Inv, Wrap;
    var f, s := CreatedFile(cs, master, kdf, nonceA, nonceB), Wrap(cs, master, password, kdf, salt, nonce);
    WrapThenUnwrap(cs, master, password, kdf, salt, nonce);
    CreatedFront(cs, master, kdf, nonceA, nonceB);
    SlotSplice(f, 0, s.Content());
    OtherSlots(f, 0, s.Content());
    SameContent(SlotAt(Splice(f, SlotOff(0), s.Content()), 0), s);
  }

  lemma CreatedFront(cs: Suite, key: bytes, kdf: Kdf, nonceA: bytes, nonceB: bytes)
    requires |nonceA| == |nonceB| == NONCE && ValidKdf(kdf)
    ensures var f := CreatedFile(cs, key, kdf, nonceA, nonceB);
            && |f| == DATA_START && ReadHeader(f) == Some(kdf)
            && forall j: nat | j < NUM_SLOTS :: SlotAt(f, j).Content() == Zeros(SLOT_SIZE)
  {
    hide Inv, SbBlock, Header, ReadHeader;
    CreatedInv(cs, key, kdf, nonceA, nonceB);
    var f := CreatedFile(cs, key, kdf, nonceA, nonceB);
    assert f[..HEADER_SIZE] == Header(kdf);
    HeaderRoundTrip(kdf, f);
    assert f[SLOTS_OFF..SB_A_OFF] == Zeros(NUM_SLOTS * SLOT_SIZE);
    forall j: nat | j < NUM_SLOTS
      ensures SlotAt(f, j).Content() == Zeros(SLOT_SIZE)
    {
      ZeroSlot(f, j);
    }
  }

  lemma ZeroSlot(f: bytes, j: nat)
    requires |f| >= DATA_START && f[SLOTS_OFF..SB_A_OFF] == Zeros(NUM_SLOTS * SLOT_SIZE) && j < NUM_SLOTS
    ensures SlotAt(f, j).Content() == Zeros(SLOT_SIZE)
  {
    var c := f[SlotOff(j)..SlotOff(j) + SLOT_SIZE];
    forall i | 0 <= i < SLOT_SIZE
      ensures c[i] == 0
    {
      assert c[i] == f[SLOTS_OFF..SB_A_OFF][j * SLOT_SIZE + i];
    }
  }

  /** A created pack can be opened with its password, at the first slot and to its master
      key, if and only if the salt is not all zeros; and no slot holds another key. */
  lemma CreatedUnlocks(cs: Suite, f: bytes, kdf: Kdf, master: bytes, password: bytes, salt: bytes, nonce: bytes)
    requires FreshSlots(cs, f, kdf, master, password, salt, nonce)
    requires |master| == KEY && |salt| == SALT && |nonce| == NONCE
    ensures KeysAgree(cs, f, password, master)
    ensures Unlock(cs, kdf, f, password, 0) == if salt != Zeros(SALT) then Some((0, master)) else None
  {
    hide ReadHeader, SlotAt, Unlock, Wrap;
    WrapThenUnwrap(cs, master, password, kdf, salt, nonce);
    forall j: nat | 0 < j < NUM_SLOTS
      ensures !Accepts(cs, kdf, f, password, j)
    {
      ZeroIsEmpty(SlotAt(f, j));
    }
    if salt == Zeros(SALT) {
      SaltOfWrap(cs, master, password, kdf, salt, nonce);
    }
    UnlockFinds(cs, kdf, f, password, 0);
    assert Accepts(cs, kdf, f, password, 0) <==> salt != Zeros(SALT);
    var r := Unlock(cs, kdf, f, password, 0);
    if r.Some? {
      assert Accepts(cs, kdf, f, password, r.value.0);
    }
  }

  lemma SaltOfWrap(cs: Suite, master: bytes, password: bytes, kdf: Kdf, salt: bytes, nonce: bytes)
    ensures Wrap(cs, master, password, kdf, salt, nonce).salt == salt
  {
  }

  lemma ZeroIsEmpty(s: KeySlot)
    requires s.Sized() && s.Content() == Zeros(SLOT_SIZE)
    ensures s.Empty()
  {
    assert s.salt == s.Content()[..SALT];
  }

  /** Two files with the same first 728 bytes agree on the header and the slots. */
  lemma SameFront(cs: Suite, f: bytes, f': bytes, password: bytes, master: bytes)
    requires |f| >= DATA_START && |f'| >= DATA_START && f[..SB_A_OFF] == f'[..SB_A_OFF]
    ensures ReadHeader(f') == ReadHeader(f)
    ensures forall j: nat | j < NUM_SLOTS :: SlotAt(f', j) == SlotAt(f, j)
    ensures KeysAgree(cs, f, password, master) ==> KeysAgree(cs, f', password, master)
  {
    hide ReadHeader, Unwrap;
    FrontSlice(f, 0, HEADER_SIZE);
    FrontSlice(f', 0, HEADER_SIZE);
    HeaderStays(f, f');
    forall j: nat | j < NUM_SLOTS
      ensures SlotAt(f', j) == SlotAt(f, j)
    {
      FrontSlice(f, SlotOff(j), SlotOff(j) + SLOT_SIZE);
      FrontSlice(f', SlotOff(j), SlotOff(j) + SLOT_SIZE);
    }
  }

  /** Some slot accepts the password. */
  ghost predicate Unlocks(cs: Suite, f: bytes, password: bytes) {
    |f| >= DATA_START && ReadHeader(f).Some? && Unlock(cs, ReadHeader(f).value, f, password, 0).Some?
  }

  lemma SameUnlocks(cs: Suite, f: bytes, f': bytes, password: bytes)
    requires |f| >= DATA_START && |f'| >= DATA_START && f[..SB_A_OFF] == f'[..SB_A_OFF]
    ensures Unlocks(cs, f, password) ==> Unlocks(cs, f', password)
  {
    hide ReadHeader, Unwrap, Unlock, SlotAt;
    SameFront(cs, f, f', password, []);
    if Unlocks(cs, f, password) {
      var kdf := ReadHeader(f).value;
      UnlockFinds(cs, kdf, f, password, 0);
      UnlockFinds(cs, kdf, f', password, 0);
      var j: nat :| j < NUM_SLOTS && Accepts(cs, kdf, f, password, j);
      assert Accepts(cs, kdf, f', password, j);
    }
  }

  lemma FrontSlice(f: bytes, lo: nat, hi: nat)
    requires lo <= hi <= SB_A_OFF <= |f|
    ensures f[lo..hi] == f[..SB_A_OFF][lo..hi]
  {
  }

  // ---- the methods ----

  /** `wrap_master`: needs 16 random bytes for the salt, the key derivation's memory, and 24
      random bytes for the nonce. */
  method WrapMaster(os: System, cs: Suite, master: bytes, password: bytes, kdf: Kdf)
    returns (r: Option<KeySlot>, ghost salt: bytes, ghost nonce: bytes)
    requires |master| == KEY
    modifies os`drawn, os`faults
    ensures os.Onward() && (r.None? ==> os.faults > old(os.faults))
    ensures r.Some? ==> os.drawn == old(os.drawn) + [salt, nonce]
    ensures |salt| == SALT && |nonce| == NONCE
    ensures r.Some? ==>
              r.value == Wrap(cs, master, password, kdf, salt, nonce) && r.value.Sized() && r.value.salt == salt
    ensures r.Some? && !r.value.Empty() ==> Unwrap(cs, r.value, password, kdf) == Some(master)
  {
    salt, nonce := Zeros(SALT), Zeros(NONCE);
    var s := os.RandomBytes(SALT);
    if s.None? {
      return None, salt, nonce;
    }
    salt := s.value;
    var memory := os.Memory();
    if !memory {
      return None, salt, nonce;
    }
    var n := os.RandomBytes(NONCE);
    if n.None? {
      return None, salt, nonce;
    }
    nonce := n.value;
    WrapThenUnwrap(cs, master, password, kdf, s.value, n.value);
    return Some(Wrap(cs, master, password, kdf, s.value, n.value)), salt, nonce;
  }

  /** `unwrap_master`; `derived` tells whether the key derivation found its memory. An empty
      slot yields nothing, and a slot wrapped with the password yields its key. */
  method UnwrapMaster(os: System, cs: Suite, s: KeySlot, password: bytes, kdf: Kdf)
    returns (r: Option<bytes>, ghost derived: bool)
    requires s.Sized()
    modifies os`faults
    ensures old(os.faults) <= os.faults && (!derived ==> os.faults > old(os.faults))
    ensures r == if derived then Unwrap(cs, s, password, kdf) else None
  {
    derived := true;
    if s.Empty() {
      return None, derived;
    }
    var memory := os.Memory();
    if !memory {
      return None, false;
    }
    return cs.unlock(Kek(cs, password, s.salt, kdf), s.wrapped[..NONCE], s.wrapped[NONCE..]), derived;
  }
}
