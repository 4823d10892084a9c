/** The template manager's client-side cache edits. */
module TemplateCache {
  import opened Options
  import opened Decimal
  import opened Templates

  /** Every cached entry carrying the saved template's id becomes the saved template; the rest stay. */
  function ReplaceById(cache: seq<Template>, saved: Template): (r: seq<Template>)
    ensures |r| == |cache|
    ensures forall i :: 0 <= i < |cache| && cache[i].id != saved.id ==> r[i] == cache[i]
    ensures forall i :: 0 <= i < |cache| && cache[i].id == saved.id ==> r[i] == saved
  {
    seq(|cache|, i requires 0 <= i < |cache| => if cache[i].id == saved.id then saved else cache[i])
  }

  /** Saving the same template twice changes nothing more than saving it once. */
  lemma ReplaceByIdIdempotent(cache: seq<Template>, saved: Template)
    ensures ReplaceById(ReplaceById(cache, saved), saved) == ReplaceById(cache, saved)
  {
  }

  /** A save whose id is not in the cache leaves the cache as it was. */
  lemma ReplaceUnknownId(cache: seq<Template>, saved: Template)
    requires forall i :: 0 <= i < |cache| ==> cache[i].id != saved.id
    ensures ReplaceById(cache, saved) == cache
  {
  }

  /** After a save, looking the id up in the cache finds the saved template exactly when the id was cached. */
  lemma FindAfterReplace(cache: seq<Template>, saved: Template)
    ensures FindById(ReplaceById(cache, saved), saved.id)
      == if FindById(cache, saved.id).Some? then Some(saved) else None
  {
    var r := ReplaceById(cache, saved);
    var found := FindById(r, saved.id);
    if found.Some? {
      var k :| IsFirstWithId(r, k, saved.id) && r[k] == found.value;
      assert cache[k].id == saved.id;
    }
  }

  /** An editor change: the selected template gets the editor's text; id and name stay; no selection, no change. */
  function EditContent(selected: Option<Template>, text: string): (r: Option<Template>)
    ensures r.Some? <==> selected.Some?
    ensures r.Some? ==> r.value.id == selected.value.id && r.value.name == selected.value.name && r.value.content == text
  {
    match selected
    case None => None
    case Some(t) => Some(t.(content := text))
  }

  /**
   * A new template as the manager posts it. Its client-side id is the
   * clock's text; the server replaces that id with its own clock's text.
   */
  function NewTemplate(name: string, content: string, now: int): (d: TemplateDraft)
    ensures d.name == name && d.content == content && d.id == Some(IntToString(now))
  {
    TemplateDraft(Some(IntToString(now)), name, content)
  }

  /** The id the manager sends is dropped: the stored template's id is the server's clock. */
  lemma ClientIdOverridden(name: string, content: string, clientNow: int, serverNow: int)
    ensures WithServerId(NewTemplate(name, content, clientNow), serverNow) == Template(IntToString(serverNow), name, content)
  {
  }
}
