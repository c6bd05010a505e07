/** The restart of the write-back runs is what RecoverFromDisk does with the
    staging directory that the run left. */
module WritebackRecovery {
  import opened Common
  import S = SessionState
  import opened Writeback
  import opened WritebackRuns
  import R = Recovery

  /** The staging directory of a gateway that stops now. */
  function DiskOf(sys: System): R.Disk<Bytes> {
    R.Disk(map p | p in sys.paths && DataFile(sys.paths[p]).Some? :: DataFile(sys.paths[p]).value,
           map p | p in sys.paths && sys.paths[p].sidecar :: R.Sidecar(false, false),
           {})
  }

  /** After a crash in any state, the dirty paths are the ones recovery takes up,
      and the session of each holds the bytes recovery found. */
  lemma RestartIsRecovery(sys: System, order: seq<Path>)
    requires Apply(sys, Crash(order)).Some?
    ensures var after := Apply(sys, Crash(order)).value;
            after.index.dirty.Keys == R.Recovered(DiskOf(sys)).Keys &&
            forall p :: p in R.Recovered(DiskOf(sys)) ==>
              p in after.paths && after.paths[p].staged.Some? &&
              S.Contents(after.paths[p].staged.value.session) == R.Recovered(DiskOf(sys))[p]
  {
    RestartIndexLists(sys.paths, order);
    var after := Apply(sys, Crash(order)).value;
    assert forall p :: p in order <==> p in (set q | q in order);
    hide RestartIndex;
    forall p ensures p in after.index.dirty <==> p in R.Recovered(DiskOf(sys)) {
    }
    forall p | p in R.Recovered(DiskOf(sys))
      ensures p in after.paths && after.paths[p].staged.Some?
      ensures S.Contents(after.paths[p].staged.value.session) == R.Recovered(DiskOf(sys))[p]
    {
      assert Recoverable(sys.paths[p]) && after.paths[p] == RestartPath(sys.paths[p]);
    }
  }
}
