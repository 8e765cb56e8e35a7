/**
  One frame of the recurring replay from its preparation to its join
  (src/rr_diffuse_replay.h:118-133, src/rr_diffuse_draw.h, src/rr_diffuse_join.h).
*/
module ReplayPipeline {
  import opened ShaderBytes
  import opened AlbedoAccess
  import opened AlbedoPrepare
  import opened ReplayFilter
  import opened ReplayStage
  import opened DiffuseJoin

  const MAXIMUM_BATCHES := 32768

  function PublishedBy(replay: PreparedReplay): Published
    reads replay
  {
    Published(replay.batches, replay.sourceIndices, replay.familyKinds, replay.sourceFirst, replay.sourceEnd)
  }

  /** However undisturbed draws partition the source range, their join goes through. */
  ghost predicate JoinsEveryPartition(p: Published)
  {
    forall s, ds, j | Started(s, p) && AllUndisturbed(s, p, ds) && Partition(p, ds) && j == Join(true, Some(s.frame)) ::
      JoinStep(AfterDraws(s, p, ds, |ds|), j).0.stage == Joined && JoinStep(AfterDraws(s, p, ds, |ds|), j).1 == None
  }

  lemma PublishableJoins(p: Published)
    requires Publishable(p.batches, p.indices, p.kinds, p.sourceFirst, p.sourceEnd)
    ensures JoinsEveryPartition(p)
  {
    forall s, ds, j | Started(s, p) && AllUndisturbed(s, p, ds) && Partition(p, ds) && j == Join(true, Some(s.frame))
      ensures JoinStep(AfterDraws(s, p, ds, |ds|), j).0.stage == Joined && JoinStep(AfterDraws(s, p, ds, |ds|), j).1 == None
    {
      PartitionJoins(s, p, ds, j);
    }
  }

  /** The manager has batches, all of which can be read and one of which at least can be replaced. */
  ghost predicate HasReplayable(a: Access, nativeManager: Address)
  {
    && nativeManager != 0 && a.managerAt(nativeManager).Some?
    && var m := a.managerAt(nativeManager).value;
       && 1 <= m.count <= 32768 && m.batches != 0 && m.instances != 0 && m.instanceBuffers != 0
       && (forall i: nat :: i < m.count ==> ReadBatch(a, m.batches, i).Some?)
       && exists i: nat :: i < m.count && FateOf(a, m, i).Keep?
  }

  lemma ReplayablePrepares(a: Access, nativeManager: Address)
    ensures HasReplayable(a, nativeManager) <==> Preparable(a, nativeManager, true, MAXIMUM_BATCHES, 0, -1)
  {
    if nativeManager != 0 && a.managerAt(nativeManager).Some? {
      var m := a.managerAt(nativeManager).value;
      var fate := FatesOf(a, m);
      forall i: nat ensures (fate(i) != Unreadable <==> ReadBatch(a, m.batches, i).Some?) && fate(i) == FateOf(a, m, i) {}
      if HasReplayable(a, nativeManager) {
        var i: nat :| i < m.count && FateOf(a, m, i).Keep?;
        assert fate(i).Keep?;
      }
    }
  }

  /** Preparation and filter of one frame: what they publish can be drawn in any partition and then joins. */
  method PrepareDiffuse(replay: PreparedReplay, a: Access, nativeManager: Address, pair: Validator)
    returns (ok: bool, targets: nat, accepted: nat)
    modifies replay
    ensures ok <==> HasReplayable(a, nativeManager)
    ensures ok ==> replay.sourceFirst == 0 && replay.sourceEnd == replay.manager.count <= MAXIMUM_BATCHES
    ensures ok ==> a.managerAt(nativeManager) == Some(replay.manager)
    ensures ok ==> Publishable(replay.batches, replay.sourceIndices, replay.familyKinds, replay.sourceFirst, replay.sourceEnd)
    ensures ok ==> accepted == |replay.batches| == replay.coverage.replayBatches
    ensures ok ==> JoinsEveryPartition(PublishedBy(replay))
  {
    targets, accepted := 0, 0;
    ReplayablePrepares(a, nativeManager);
    ok := replay.Prepare(a, nativeManager, true, MAXIMUM_BATCHES, 0, -1);
    if !ok { return; }
    targets, accepted := FilterPrepared(replay, a, pair, FatesOf(a, replay.manager));
    PublishableJoins(PublishedBy(replay));
  }

  method FilterPrepared(replay: PreparedReplay, a: Access, pair: Validator, ghost fate: Fates)
    returns (targets: nat, accepted: nat)
    requires replay.IsPrepared(fate)
    modifies replay`batches, replay`sourceIndices, replay`familyKinds, replay`coverage
    ensures Publishable(replay.batches, replay.sourceIndices, replay.familyKinds, replay.sourceFirst, replay.sourceEnd)
    ensures accepted == |replay.batches| == replay.coverage.replayBatches
  {
    ghost var batches, indices, kinds := replay.batches, replay.sourceIndices, replay.familyKinds;
    ghost var s := Outcomes(a, replay.manager, pair, batches, indices);
    PreparedPublishable(replay, fate);
    var rejected;
    targets, accepted, rejected := FilterDiffuse(replay, a, pair);
    FilteredPublishable(replay, batches, indices, kinds, s, DiffuseFits);
  }
}
