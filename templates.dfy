/** Challenge-description templates as the server stores them under the `templates` key. */
module Templates {
  import opened Options
  import opened Decimal
  import opened Challenge

  datatype Template = Template(id: string, name: string, content: string)

  /**
   * The body of a template POST. The spread copies whatever the client
   * sent, an `id` included, and the server's id then replaces it.
   */
  datatype TemplateDraft = TemplateDraft(id: Option<string>, name: string, content: string)

  /** The stored list, or `[]` when the key is absent. */
  function StoredOrEmpty(stored: Option<seq<Template>>): seq<Template> {
    stored.GetOr([])
  }

  /** The template list query: the stored list, `[]` when none, 500 when the store does not answer. */
  function GetTemplates(stored: Option<seq<Template>>, reachable: bool): (r: Reply<seq<Template>>)
    ensures r.Ok? <==> reachable
    ensures !reachable ==> r == Err(500, "Failed to fetch templates")
    ensures r.Ok? && stored.None? ==> r.body == []
    ensures r.Ok? && stored.Some? ==> r.body == stored.value
  {
    if reachable then Ok(StoredOrEmpty(stored)) else Err(500, "Failed to fetch templates")
  }

  /** The posted template as stored: name and content from the draft, id the clock's decimal string. */
  function WithServerId(draft: TemplateDraft, now: int): (t: Template)
    ensures t.name == draft.name && t.content == draft.content
    ensures t.id == IntToString(now)
  {
    Template(IntToString(now), draft.name, draft.content)
  }

  /**
   * Ids are the clock's text, so drafts posted at different milliseconds
   * get different ids and drafts posted in the same millisecond share one:
   * nothing else keeps ids unique.
   */
  lemma ServerIdsCollideOnlyOnSameClock(a: TemplateDraft, b: TemplateDraft, now1: int, now2: int)
    ensures WithServerId(a, now1).id == WithServerId(b, now2).id <==> now1 == now2
  {
    if WithServerId(a, now1).id == WithServerId(b, now2).id {
      IntToStringInjective(now1, now2);
    }
  }

  /** The list a successful POST stores: the old list with the new template appended. */
  function Appended(stored: Option<seq<Template>>, t: Template): (r: seq<Template>)
    ensures |r| == |StoredOrEmpty(stored)| + 1
    ensures r[..|r| - 1] == StoredOrEmpty(stored) && r[|r| - 1] == t
  {
    StoredOrEmpty(stored) + [t]
  }

  /** After a POST the list query answers the old list plus exactly the template the POST returned. */
  lemma QueryAfterPost(stored: Option<seq<Template>>, draft: TemplateDraft, now: int)
    ensures var posted := WithServerId(draft, now);
      GetTemplates(Some(Appended(stored, posted)), true) == Ok(GetTemplates(stored, true).body + [posted])
  {
  }

  /** Position `k` holds the first template carrying `id`. */
  predicate IsFirstWithId(templates: seq<Template>, k: int, id: string) {
    0 <= k < |templates| && templates[k].id == id && forall j :: 0 <= j < k ==> templates[j].id != id
  }

  /** The first template with the given id (`templates.find`). */
  function FindById(templates: seq<Template>, id: string): (r: Option<Template>)
    ensures r.None? <==> forall k :: 0 <= k < |templates| ==> templates[k].id != id
    ensures r.Some? ==> exists k :: IsFirstWithId(templates, k, id) && templates[k] == r.value
  {
    if templates == [] then None
    else if templates[0].id == id then Some(templates[0])
    else
      var r := FindById(templates[1..], id);
      if r.Some? then
        var k :| IsFirstWithId(templates[1..], k, id) && templates[1..][k] == r.value;
        assert IsFirstWithId(templates, k + 1, id);
        r
      else r
  }
}
