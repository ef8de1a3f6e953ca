/**
 * TimeRotationPolicy (lib/logstash/outputs/s3/time_rotation_policy.rb): a
 * file must rotate once its age (now minus its File.ctime, on Unix the
 * status-change time that every write reaching the file moves forward)
 * reaches max_age.
 * The clock is a parameter; instants are real numbers of seconds, as the
 * difference of two Ruby Time values is a fractional number of seconds.
 */
module TimeRotation {

  datatype TimeRotationPolicy = TimeRotationPolicy(maxAge: int) {

    /** rotate?(file): the file's age has reached max_age.  Size and contents play no part. */
    predicate Rotate(ctime: real, now: real): (r: bool)
      ensures now >= ctime + maxAge as real ==> r
      ensures now < ctime + maxAge as real ==> !r
    {
      now - ctime >= maxAge as real
    }
  }

  /** The boundary is inclusive: a file exactly max_age old rotates, one any younger does not. */
  lemma RotateBoundary(p: TimeRotationPolicy, ctime: real, younger: real)
    requires 0.0 < younger
    ensures p.Rotate(ctime, ctime + p.maxAge as real)
    ensures !p.Rotate(ctime, ctime + p.maxAge as real - younger)
  {
  }

  /** Once a file is due it stays due at every later instant. */
  lemma RotateMonotone(p: TimeRotationPolicy, ctime: real, now: real, later: real)
    requires p.Rotate(ctime, now) && now <= later
    ensures p.Rotate(ctime, later)
  {
  }

  /** With a positive max_age, a file checked at the instant of its ctime stays and is due after twice max_age. */
  lemma RotateFreshAndOld(p: TimeRotationPolicy, ctime: real)
    requires p.maxAge > 0
    ensures !p.Rotate(ctime, ctime)
    ensures p.Rotate(ctime, ctime + 2.0 * p.maxAge as real)
  {
  }
}
