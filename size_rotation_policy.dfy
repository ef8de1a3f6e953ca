/**
 * SizeRotationPolicy (lib/logstash/outputs/s3/size_rotation_policy.rb): a
 * file must rotate once its size is strictly greater than max_size.  The
 * policy keeps only max_size and does no validation of it.
 */
module SizeRotation {

  datatype SizeRotationPolicy = SizeRotationPolicy(maxSize: int) {

    /** rotate?(file): the file is past the limit; a file of exactly max_size bytes stays. */
    predicate Rotate(fileSize: nat): (r: bool)
      ensures fileSize <= maxSize ==> !r
      ensures fileSize >= maxSize + 1 ==> r
    {
      fileSize > maxSize
    }
  }

  /** The comparison is strict: a file of exactly max_size bytes stays. */
  lemma RotateIff(p: SizeRotationPolicy, fileSize: nat)
    ensures p.Rotate(fileSize) <==> fileSize > p.maxSize
    ensures fileSize == p.maxSize ==> !p.Rotate(fileSize)
  {
  }

  /** Monotone in the size: a larger file rotates whenever a smaller one does. */
  lemma RotateMonotone(p: SizeRotationPolicy, s: nat, t: nat)
    requires p.Rotate(s) && s <= t
    ensures p.Rotate(t)
  {
  }

  /** The scenario of the policy's own test: max_size 10, an empty file and "hello" * 1000. */
  lemma RotateExamples()
    ensures !SizeRotationPolicy(10).Rotate(0)
    ensures SizeRotationPolicy(10).Rotate(5000)
  {
  }
}
