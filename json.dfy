/**
 * JSON.stringify and JSON.parse, kept abstract: the model needs only the laws
 * the two keep on a configuration, not the JSON grammar.
 */
module Json {
  import opened Types

  /**
   * What JSON.parse yields for a link payload: it throws (Malformed), yields a
   * value that is not an object carrying an id (NotAConfig), or yields an object
   * the application takes for a configuration.
   */
  datatype Parsed = Malformed | NotAConfig | AConfig(config: RegistrationConfig)

  /** The serializer pair a run of the program uses. */
  datatype Codec = Codec(stringify: RegistrationConfig -> string, parse: string -> Parsed)

  /**
   * What JSON promises for one configuration: stringify writes an object
   * literal, so its text is non-empty and starts with '{', and parse reads that
   * text back as the same configuration. It is stated per value, since a codec
   * that read back every configuration would need a distinct string for each of
   * uncountably many real prices.
   */
  ghost predicate ReadsBack(j: Codec, c: RegistrationConfig)
  {
    var t := j.stringify(c);
    |t| > 0 && t[0] == '{' && j.parse(t) == AConfig(c)
  }

  /** For every configuration some codec reads it back, so the hypothesis can be met. */
  lemma ReadsBackIsSatisfiable(c: RegistrationConfig)
    ensures exists j: Codec :: ReadsBack(j, c)
  {
    var j := Codec((_: RegistrationConfig) => "{}", (_: string) => AConfig(c));
    assert ReadsBack(j, c);
  }
}
