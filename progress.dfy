/** `Progress`: a point on a timing curve, relative time against relative value. */
module Progresses {

  datatype Progress = Progress(relativeTime: real, relativeValue: real)

  /** `Progress.start()`. */
  function Start(): (r: Progress)
    ensures r.relativeTime == 0.0 && r.relativeValue == 0.0
  {
    Progress(0.0, 0.0)
  }

  /** `Progress.end()`. */
  function End(): (r: Progress)
    ensures r.relativeTime == 1.0 && r.relativeValue == 1.0
  {
    Progress(1.0, 1.0)
  }
}
