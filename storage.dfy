/** The browser's local storage as the core sees it: plain string entries
    under fixed keys, and two entries whose value is a JSON document (the
    final links and the resume record), kept here already decoded. */
module Storage {
  import opened Options
  import opened Decimal
  import opened Resume

  type Items = map<string, string>

  /** `localStorage.getItem(key)`: the stored string, or `null`. */
  function Get(items: Items, key: string): Option<string> {
    if key in items then Some(items[key]) else None
  }

  /** JavaScript truthiness of a possibly `null` string. */
  predicate Truthy(v: Option<string>) {
    v.Some? && v.value != ""
  }

  /** The key `rb_step_${step}_artifact`. */
  function ArtifactKey(step: int): string {
    "rb_step_" + IntToDecimal(step) + "_artifact"
  }

  /** The key `rb_step_${step}_status`. */
  function StatusKey(step: int): string {
    "rb_step_" + IntToDecimal(step) + "_status"
  }

  /** Step `step` has a stored, non-empty artifact. */
  predicate HasArtifact(items: Items, step: int) {
    Truthy(Get(items, ArtifactKey(step)))
  }

  /** Different steps never share an artifact key. */
  lemma ArtifactKeyInjective(a: int, b: int)
    ensures ArtifactKey(a) == ArtifactKey(b) <==> a == b
  {
    if ArtifactKey(a) == ArtifactKey(b) {
      var da, db := IntToDecimal(a), IntToDecimal(b);
      assert |da| == |db|;
      assert da == ArtifactKey(a)[8..8 + |da|];
      assert db == ArtifactKey(b)[8..8 + |db|];
      IntToDecimalInjective(a, b);
    }
  }

  /** Different steps never share a status key. */
  lemma StatusKeyInjective(a: int, b: int)
    ensures StatusKey(a) == StatusKey(b) <==> a == b
  {
    if StatusKey(a) == StatusKey(b) {
      var da, db := IntToDecimal(a), IntToDecimal(b);
      assert |da| == |db|;
      assert da == StatusKey(a)[8..8 + |da|];
      assert db == StatusKey(b)[8..8 + |db|];
      IntToDecimalInjective(a, b);
    }
  }

  /** An artifact key is never a status key. */
  lemma ArtifactKeyNotStatusKey(a: int, b: int)
    ensures ArtifactKey(a) != StatusKey(b)
  {
    var ka, kb := ArtifactKey(a), StatusKey(b);
    assert ka[|ka| - 1] == 't';
    assert kb[|kb| - 1] == 's';
  }

  /** The storage of one browser profile, shared by every page. */
  class Local {
    /** Entries holding plain strings (step artifacts and statuses). */
    var items: Items
    /** The decoded JSON object under `rb_final_links`, if any. */
    var finalLinks: Option<map<string, string>>
    /** The decoded JSON record under `rb_resume_data`, if any. */
    var resumeData: Option<ResumeData>

    constructor (items: Items, finalLinks: Option<map<string, string>>, resumeData: Option<ResumeData>)
      ensures this.items == items && this.finalLinks == finalLinks && this.resumeData == resumeData
    {
      this.items := items;
      this.finalLinks := finalLinks;
      this.resumeData := resumeData;
    }
  }
}
