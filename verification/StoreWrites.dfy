/** Each registration advances the inputs. */
module StoreWrites {
  import opened TextEdits
  import opened SourceStore
  import opened StoreInvariants

  /** What writing a revision field does to the clock and to the one record it touches. */
  lemma RevisionWritten(i: Inputs, f: FileId, revision: nat, d: Durability, unreadable: bool)
    requires i.clock.Valid()
    ensures
      var j := WriteRevision(i, f, revision, d, unreadable);
      && j.clock.Valid() && i.clock.now <= j.clock.now
      && j == i.(clock := j.clock, revisions := i.revisions[f := j.revisions[f]])
      && (forall e: Durability :: i.clock.LastChanged(e) <= j.clock.LastChanged(e))
      && j.revisions[f].revision.value == revision
      && j.revisions[f].unreadable.value == unreadable
      && j.revisions[f].revision.stamp.changedAt <= j.clock.now
      && j.revisions[f].unreadable.stamp.changedAt <= Later(j.clock.now, OldUnreadable(i, f))
  {
    ClockGoesOn(i, f, revision, d, unreadable);
  }

  lemma ClockGoesOn(i: Inputs, f: FileId, revision: nat, d: Durability, unreadable: bool)
    requires i.clock.Valid()
    ensures
      var clock := WriteRevision(i, f, revision, d, unreadable).clock;
      && clock.Valid() && i.clock.now <= clock.now
      && (forall e: Durability :: i.clock.LastChanged(e) <= clock.LastChanged(e))
  {
  }

  function OldUnreadable(i: Inputs, f: FileId): nat {
    if f in i.revisions then i.revisions[f].unreadable.stamp.changedAt else 0
  }

  /** Of a file known before: the revision is always a write every reader sees, the flag is
      one exactly when it flips. */
  lemma RevisionWriteIsSeen(i: Inputs, f: FileId, revision: nat, d: Durability, unreadable: bool)
    requires i.clock.Valid() && f in i.revisions
    ensures
      var j := WriteRevision(i, f, revision, d, unreadable);
      && i.clock.now < j.revisions[f].revision.stamp.changedAt
      && (forall e: Durability | e.AtMost(i.revisions[f].revision.stamp.durability) ::
            i.clock.now < j.clock.LastChanged(e))
      && (i.revisions[f].unreadable.value == unreadable ==>
            j.revisions[f].unreadable == i.revisions[f].unreadable)
      && (i.revisions[f].unreadable.value != unreadable ==>
            && i.clock.now < j.revisions[f].unreadable.stamp.changedAt
            && (forall e: Durability | e.AtMost(i.revisions[f].unreadable.stamp.durability) ::
                  i.clock.now < j.clock.LastChanged(e)))
  {
  }

  /** Between `i` and `mid` nothing but the text and the overlay of `f` was written. */
  ghost predicate OnlyOverlayOf(i: Inputs, mid: Inputs, f: FileId)
    requires i.WellFormed()
  {
    && mid.clock.Valid() && mid.revisions == i.revisions && mid.rootOf == i.rootOf && mid.roots == i.roots
    && (forall g | g != f :: (g in mid.overlays <==> g in i.overlays))
    && (forall g | g in i.overlays && g != f ::
          && mid.overlays[g] == i.overlays[g] && mid.overlays[g] < |mid.texts|
          && mid.texts[mid.overlays[g]] == i.texts[i.overlays[g]])
    && (f in mid.overlays ==> mid.overlays[f] < |mid.texts|)
    && (f in mid.overlays ==> forall g | g in mid.overlays && g != f :: mid.overlays[g] != mid.overlays[f])
  }

  lemma RegistrationStampsAdvance(i: Inputs, mid: Inputs, f: FileId, revision: nat, d: Durability, unreadable: bool)
    requires i.WellFormed() && OnlyOverlayOf(i, mid, f) && StampsAdvance(i, mid)
    ensures StampsAdvance(i, WriteRevision(mid, f, revision, d, unreadable))
  {
    var j := WriteRevision(mid, f, revision, d, unreadable);
    RevisionWritten(mid, f, revision, d, unreadable);
    if f in i.revisions {
      RevisionWriteIsSeen(mid, f, revision, d, unreadable);
    }
    forall k | i.Has(k)
      ensures j.Has(k)
      ensures j.StampOf(k) == i.StampOf(k) || WriteIsSeen(i, j, k)
    {
      assert mid.Has(k);
      if j.StampOf(k) == mid.StampOf(k) && mid.StampOf(k) != i.StampOf(k) {
        assert WriteIsSeen(i, mid, k);
        forall e: Durability | e.AtMost(i.StampOf(k).durability)
          ensures i.clock.now < j.clock.LastChanged(e)
        {
          assert mid.clock.LastChanged(e) <= j.clock.LastChanged(e);
        }
      }
    }
  }

  /** Registering a revision over inputs whose overlays of other files stand still. */
  lemma RegistrationAdvances(i: Inputs, mid: Inputs, f: FileId, revision: nat, d: Durability, unreadable: bool)
    requires i.WellFormed() && StampsPast(i) && OnlyOverlayOf(i, mid, f) && StampsAdvance(i, mid)
    ensures Advances(i, WriteRevision(mid, f, revision, d, unreadable))
  {
    RegistrationIsWellFormed(i, mid, f, revision, d, unreadable);
    RegistrationStampsAdvance(i, mid, f, revision, d, unreadable);
    RegistrationFollowsStamps(i, mid, f, revision, d, unreadable);
  }

  lemma RegistrationIsWellFormed(i: Inputs, mid: Inputs, f: FileId, revision: nat, d: Durability, unreadable: bool)
    requires i.WellFormed() && OnlyOverlayOf(i, mid, f)
    ensures WriteRevision(mid, f, revision, d, unreadable).WellFormed()
  {
    RevisionWritten(mid, f, revision, d, unreadable);
  }

  lemma RegistrationFollowsStamps(i: Inputs, mid: Inputs, f: FileId, revision: nat, d: Durability, unreadable: bool)
    requires i.WellFormed() && StampsPast(i) && OnlyOverlayOf(i, mid, f) && StampsAdvance(i, mid)
    requires
      var j := WriteRevision(mid, f, revision, d, unreadable);
      j.WellFormed() && StampsAdvance(i, j)
    ensures ValuesFollowStamps(i, WriteRevision(mid, f, revision, d, unreadable))
  {
    var j := WriteRevision(mid, f, revision, d, unreadable);
    RevisionWritten(mid, f, revision, d, unreadable);
    if f in i.revisions {
      RevisionWriteIsSeen(mid, f, revision, d, unreadable);
    }
    forall g | g in i.revisions && j.Unchanged(RevisionField(g), i.clock.now)
      ensures g != f
    {
    }
    forall g | g in i.revisions && j.Unchanged(UnreadableField(g), i.clock.now)
      ensures j.revisions[g].unreadable.value == i.revisions[g].unreadable.value
    {
    }
  }

  lemma TextWritten(i: Inputs, f: FileId, text: Text, d: Durability)
    requires i.WellFormed() && StampsPast(i)
    ensures
      var mid := WriteText(i, f, text, d);
      && mid.clock.Valid() && mid.revisions == i.revisions && mid.rootOf == i.rootOf && mid.roots == i.roots
      && StampsAdvance(i, mid) && StampsPast(mid)
      && f in mid.overlays && mid.overlays[f] < |mid.texts| && mid.texts[mid.overlays[f]].value == text
      && (forall g | g != f :: (g in mid.overlays <==> g in i.overlays))
      && (forall g | g in i.overlays && g != f ::
            mid.overlays[g] == i.overlays[g] && mid.overlays[g] < |mid.texts|
            && mid.texts[mid.overlays[g]] == i.texts[i.overlays[g]])
      && (forall g | g in mid.overlays && g != f :: mid.overlays[g] != mid.overlays[f])
  {
    var mid := WriteText(i, f, text, d);
    forall k | i.Has(k)
      ensures mid.Has(k)
      ensures mid.StampOf(k) == i.StampOf(k) || WriteIsSeen(i, mid, k)
    {
    }
    forall k | mid.Has(k) ensures mid.StampOf(k).changedAt <= mid.clock.now {
      if i.Has(k) { assert i.StampOf(k).changedAt <= i.clock.now; }
    }
  }

  lemma RevisionStampsPast(i: Inputs, f: FileId, revision: nat, d: Durability, unreadable: bool)
    requires i.clock.Valid() && StampsPast(i)
    ensures StampsPast(WriteRevision(i, f, revision, d, unreadable))
  {
    var j := WriteRevision(i, f, revision, d, unreadable);
    RevisionWritten(i, f, revision, d, unreadable);
    if f in i.revisions { assert i.Has(UnreadableField(f)) && i.StampOf(UnreadableField(f)).changedAt <= i.clock.now; }
    forall k | j.Has(k) ensures j.StampOf(k).changedAt <= j.clock.now {
      if k != RevisionField(f) && k != UnreadableField(f) {
        assert i.Has(k) && j.StampOf(k) == i.StampOf(k);
      }
    }
  }

  /** `set_file_text`, in every variant: text, revision and flag move in one exclusive step. */
  lemma SetTextAdvances(env: Env, i: Inputs, f: FileId, text: Text, d: Durability, unreadable: bool)
    requires InputsOk(env, i)
    ensures
      var j := SetTextMarked(env, i, f, text, d, unreadable);
      Advances(i, j) && InputsOk(env, j)
  {
    var mid := WriteText(i, f, text, d);
    TextWritten(i, f, text, d);
    RegistrationAdvances(i, mid, f, env.hash(text), d, unreadable);
    RevisionStampsPast(mid, f, env.hash(text), d, unreadable);
    RevisionWritten(mid, f, env.hash(text), d, unreadable);
  }

  /** `set_file_revision_from_disk`: the overlay goes in the same step as the revision is written. */
  lemma SetFromDiskAdvances(env: Env, i: Inputs, f: FileId, revision: nat)
    requires InputsOk(env, i)
    ensures Advances(i, SetFromDisk(i, f, revision)) && InputsOk(env, SetFromDisk(i, f, revision))
  {
    var mid := i.(overlays := i.overlays - {f});
    var d := DurabilityOrLow(mid, f);
    forall k | i.Has(k) ensures mid.Has(k) && mid.StampOf(k) == i.StampOf(k) {
    }
    forall k | mid.Has(k) ensures mid.StampOf(k).changedAt <= mid.clock.now {
      assert i.Has(k);
    }
    RegistrationAdvances(i, mid, f, revision, d, false);
    RevisionStampsPast(mid, f, revision, d, false);
    RevisionWritten(mid, f, revision, d, false);
  }

  lemma SetRootAdvances(env: Env, i: Inputs, r: RootId, root: SourceRoot)
    requires InputsOk(env, i)
    ensures Advances(i, SetRoot(i, r, root)) && InputsOk(env, SetRoot(i, r, root))
  {
    var j := SetRoot(i, r, root);
    forall k | i.Has(k)
      ensures j.Has(k)
      ensures j.StampOf(k) == i.StampOf(k) || WriteIsSeen(i, j, k)
    {
    }
    forall k | j.Has(k) ensures j.StampOf(k).changedAt <= j.clock.now {
      if k != RootField(r) { assert i.Has(k) && i.StampOf(k).changedAt <= i.clock.now; }
    }
  }

  lemma SetRootOfAdvances(env: Env, i: Inputs, f: FileId, r: RootId)
    requires InputsOk(env, i)
    ensures Advances(i, SetRootOf(i, f, r)) && InputsOk(env, SetRootOf(i, f, r))
  {
    var j := SetRootOf(i, f, r);
    if j != i {
      forall k | i.Has(k)
        ensures j.Has(k)
        ensures j.StampOf(k) == i.StampOf(k) || WriteIsSeen(i, j, k)
      {
      }
      assert StampsAdvance(i, j);
      forall k | j.Has(k) ensures j.StampOf(k).changedAt <= j.clock.now {
        if k != RootOfField(f) { assert i.Has(k) && i.StampOf(k).changedAt <= i.clock.now; }
      }
      assert j.WellFormed();
      assert ValuesFollowStamps(i, j);
    }
  }

  /** A write of no input at all, as a workspace sweep makes. */
  lemma SyntheticWriteAdvances(env: Env, i: Inputs, d: Durability)
    requires InputsOk(env, i)
    ensures
      var j := i.(clock := i.clock.Written(d));
      Advances(i, j) && InputsOk(env, j)
  {
    var j := i.(clock := i.clock.Written(d));
    forall k | i.Has(k) ensures j.Has(k) && j.StampOf(k) == i.StampOf(k) {
    }
    forall k | j.Has(k) ensures j.StampOf(k).changedAt <= j.clock.now {
      assert i.Has(k) && i.StampOf(k).changedAt <= i.clock.now;
    }
  }
}
