/**
 * window.localStorage with the two keys the program uses: 'grace_reg_configs'
 * and 'grace_reg_submissions'. Each key holds a JSON list, written with
 * JSON.stringify and read back with JSON.parse; a write that exceeds the quota
 * throws and leaves the key as it was.
 */
module Storage {
  import opened Types

  class LocalStorage {
    var configs: Blob<RegistrationConfig>
    var submissions: Blob<Submission>

    constructor(configs: Blob<RegistrationConfig>, submissions: Blob<Submission>)
      ensures this.configs == configs && this.submissions == submissions
    {
      this.configs := configs;
      this.submissions := submissions;
    }

    /** setItem('grace_reg_configs', ...); fits is false when the quota is exceeded and setItem throws. */
    method SetConfigs(items: seq<RegistrationConfig>, fits: bool) returns (ok: bool)
      modifies this
      ensures ok == fits
      ensures configs == (if fits then Holds(items) else old(configs))
      ensures submissions == old(submissions)
    {
      ok := fits;
      if fits {
        configs := Holds(items);
      }
    }

    /** setItem('grace_reg_submissions', ...), failing like SetConfigs. */
    method SetSubmissions(items: seq<Submission>, fits: bool) returns (ok: bool)
      modifies this
      ensures ok == fits
      ensures submissions == (if fits then Holds(items) else old(submissions))
      ensures configs == old(configs)
    {
      ok := fits;
      if fits {
        submissions := Holds(items);
      }
    }
  }

  /** The startup read of the configuration list: a missing key and text that does not parse both give []. */
  function StoredConfigs(b: Blob<RegistrationConfig>): (r: seq<RegistrationConfig>)
    ensures b.Holds? ==> r == b.items
    ensures !b.Holds? ==> r == []
  {
    match b
    case Holds(items) => items
    case _ => []
  }

  /** JSON.parse(getItem('grace_reg_submissions') || '[]'): None where JSON.parse throws. */
  function StoredSubmissions(b: Blob<Submission>): (r: Option<seq<Submission>>)
    ensures r.None? <==> b.Unparsable?
    ensures b.Missing? ==> r == Some([])
    ensures b.Holds? ==> r == Some(b.items)
  {
    match b
    case Missing => Some([])
    case Unparsable => None
    case Holds(items) => Some(items)
  }
}
