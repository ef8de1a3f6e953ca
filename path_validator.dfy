/**
 * PathValidator.valid? (lib/logstash/outputs/s3/path_validator.rb): a name
 * is valid when it does not match the character class [\^`><].  The
 * monolithic plugin's S3_INVALID_CHARACTERS (lib/logstash/outputs/s3.rb:77)
 * is the same class; S3Naming.PrefixRejected is proved to agree with it.
 * (The source declares this class under the misspelt namespace
 * LogStash::Ouputs::S3, path_validator.rb:3.)
 */
module PathValidation {

  /** One of the four characters of INVALID_CHARACTERS. */
  predicate InvalidChar(c: char) {
    c == '^' || c == '`' || c == '>' || c == '<'
  }

  /** valid?(name): the regular expression finds no invalid character. */
  function Valid(name: string): (r: bool)
    ensures r <==> forall i :: 0 <= i < |name| ==> !InvalidChar(name[i])
  {
    if name == [] then true
    else !InvalidChar(name[0]) && Valid(name[1..])
  }

  /** The negated form: a name is invalid iff some position holds an invalid character. */
  lemma InvalidIffWitness(name: string)
    ensures !Valid(name) <==> exists i :: 0 <= i < |name| && InvalidChar(name[i])
  {
  }

  lemma EmptyIsValid()
    ensures Valid("")
  {
  }

  /** Validity is decided character by character, so it splits over concatenation. */
  lemma {:induction false} ValidConcat(a: string, b: string)
    ensures Valid(a + b) == (Valid(a) && Valid(b))
    decreases |a|
  {
    if a != [] {
      assert (a + b)[0] == a[0];
      assert (a + b)[1..] == a[1..] + b;
      ValidConcat(a[1..], b);
    } else {
      assert a + b == b;
    }
  }

  /**
   * The prefix of the plugin's register test is rejected.  Ruby reads the
   * literal "`no\><^" with the unknown escape dropped, giving "`no><^".
   */
  lemma RegisterTestPrefixInvalid()
    ensures !Valid("`no><^")
  {
    assert InvalidChar("`no><^"[0]);
  }
}
