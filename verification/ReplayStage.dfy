/** The stage of the recurring replay (src/rr_diffuse_replay.h:4). */
module ReplayStage {
  datatype Stage = Idle | Recording | Joined | Stopped
}
