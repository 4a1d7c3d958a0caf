/** Versioned notification templates (src/email/notification-template.service.ts:42-121). */
module NotificationTemplates {
  import opened Wrappers

  type Id = string

  datatype Content = Content(subject: string, htmlBody: string)

  datatype Template = Template(name: string, subject: string, htmlBody: string, version: nat)

  /** The live rows, and the snapshots by template and version. */
  datatype Store = Store(templates: map<Id, Template>, versions: map<(Id, nat), Content>)

  datatype Result = Ok(template: Template) | BadRequest | Conflict | NotFound

  /** Whether Handlebars accepts a text. */
  type Compiler = string -> bool

  datatype Edit = Edit(subject: Option<string>, htmlBody: Option<string>)

  datatype Op =
    | Create(id: Id, name: string, content: Content)
    | Update(id: Id, edit: Edit)
    | Rollback(id: Id, version: nat)

  function Or(choice: Option<string>, otherwise: string): string {
    if choice.Some? then choice.value else otherwise
  }

  predicate NameTaken(s: Store, name: string) {
    exists id | id in s.templates :: s.templates[id].name == name
  }

  predicate Compiles(compiles: Compiler, subject: string, htmlBody: string) {
    compiles(subject) && compiles(htmlBody)
  }

  /** The current content goes to the snapshots and the template moves on to new content. */
  function MoveOn(s: Store, id: Id, subject: string, htmlBody: string): Store
    requires id in s.templates
  {
    var t := s.templates[id];
    Store(s.templates[id := t.(subject := subject, htmlBody := htmlBody, version := t.version + 1)],
          s.versions[(id, t.version) := Content(t.subject, t.htmlBody)])
  }

  function Apply(s: Store, op: Op, compiles: Compiler): (Store, Result) {
    match op
    case Create(id, name, content) =>
      if !Compiles(compiles, content.subject, content.htmlBody) then (s, BadRequest)
      else if NameTaken(s, name) then (s, Conflict)
      else
        var t := Template(name, content.subject, content.htmlBody, 1);
        (s.(templates := s.templates[id := t]), Ok(t))
    case Update(id, edit) =>
      if !Compiles(compiles, Or(edit.subject, ""), Or(edit.htmlBody, "")) then (s, BadRequest)
      else if id !in s.templates then (s, NotFound)
      else
        var t := MoveOn(s, id, Or(edit.subject, s.templates[id].subject), Or(edit.htmlBody, s.templates[id].htmlBody));
        (t, Ok(t.templates[id]))
    case Rollback(id, version) =>
      if id !in s.templates || (id, version) !in s.versions then (s, NotFound)
      else
        var target := s.versions[(id, version)];
        var t := MoveOn(s, id, target.subject, target.htmlBody);
        (t, Ok(t.templates[id]))
  }

  /** The live content after an edit: what is given, and the rest as it was. */
  predicate Edited(before: Template, edit: Edit, after: Template) {
    && after.name == before.name && after.version == before.version + 1
    && (match edit.subject case Some(text) => after.subject == text case None => after.subject == before.subject)
    && (match edit.htmlBody case Some(text) => after.htmlBody == text case None => after.htmlBody == before.htmlBody)
  }

  /** Only this template has changed, and only the snapshot of what it was has been added. */
  predicate Snapshotted(s: Store, t: Store, id: Id) {
    && id in s.templates && id in t.templates
    && t.templates - {id} == s.templates - {id}
    && t.versions - {(id, s.templates[id].version)} == s.versions - {(id, s.templates[id].version)}
    && (id, s.templates[id].version) in t.versions
    && t.versions[(id, s.templates[id].version)] == Content(s.templates[id].subject, s.templates[id].htmlBody)
  }

  predicate GivenCompile(compiles: Compiler, edit: Edit) {
    && (match edit.subject case Some(text) => compiles(text) case None => compiles(""))
    && (match edit.htmlBody case Some(text) => compiles(text) case None => compiles(""))
  }

  /** What each operation answers and leaves behind. */
  lemma UpdateExactly(s: Store, id: Id, edit: Edit, compiles: Compiler)
    ensures var (t, result) := Apply(s, Update(id, edit), compiles);
      if !GivenCompile(compiles, edit) then result == BadRequest && t == s
      else if id !in s.templates then result == NotFound && t == s
      else
        && Snapshotted(s, t, id) && Edited(s.templates[id], edit, t.templates[id])
        && result == Ok(t.templates[id])
  {
  }

  lemma CreateExactly(s: Store, id: Id, name: string, content: Content, compiles: Compiler)
    ensures var (t, result) := Apply(s, Create(id, name, content), compiles);
      if !compiles(content.subject) || !compiles(content.htmlBody) then result == BadRequest && t == s
      else if NameTaken(s, name) then result == Conflict && t == s
      else
        && t.templates - {id} == s.templates - {id} && t.versions == s.versions
        && id in t.templates && result == Ok(t.templates[id])
        && t.templates[id].name == name && t.templates[id].version == 1
        && t.templates[id].subject == content.subject && t.templates[id].htmlBody == content.htmlBody
  {
  }

  class NotificationTemplateService {
    var templateRepo: map<Id, Template>
    var versionRepo: map<(Id, nat), Content>
    const compiles: Compiler

    constructor (compiles: Compiler)
      ensures AsStore() == Store(map[], map[]) && this.compiles == compiles
    {
      this.compiles := compiles;
      templateRepo, versionRepo := map[], map[];
    }

    function AsStore(): Store
      reads this
    {
      Store(templateRepo, versionRepo)
    }

    /** `newId` is the identifier the database generates. */
    method Create(newId: Id, name: string, content: Content) returns (result: Result)
      requires newId !in templateRepo
      modifies this
      ensures (AsStore(), result) == Apply(old(AsStore()), Op.Create(newId, name, content), compiles)
    {
      if !compiles(content.subject) || !compiles(content.htmlBody) {
        return BadRequest;
      }
      if NameTaken(AsStore(), name) {
        return Conflict;
      }
      var template := Template(name, content.subject, content.htmlBody, 1);
      templateRepo := templateRepo[newId := template];
      return Ok(template);
    }

    method Snapshot(id: Id, template: Template)
      modifies this`versionRepo
      ensures versionRepo == old(versionRepo)[(id, template.version) := Content(template.subject, template.htmlBody)]
    {
      versionRepo := versionRepo[(id, template.version) := Content(template.subject, template.htmlBody)];
    }

    method Update(id: Id, edit: Edit) returns (result: Result)
      modifies this
      ensures (AsStore(), result) == Apply(old(AsStore()), Op.Update(id, edit), compiles)
      ensures result.Ok? ==>
        && Snapshotted(old(AsStore()), AsStore(), id)
        && Edited(old(templateRepo)[id], edit, templateRepo[id]) && result.template == templateRepo[id]
    {
      UpdateExactly(AsStore(), id, edit, compiles);
      if !compiles(Or(edit.subject, "")) || !compiles(Or(edit.htmlBody, "")) {
        return BadRequest;
      }
      if id !in templateRepo {
        return NotFound;
      }
      var template := templateRepo[id];
      Snapshot(id, template);
      if edit.subject.Some? {
        template := template.(subject := edit.subject.value);
      }
      if edit.htmlBody.Some? {
        template := template.(htmlBody := edit.htmlBody.value);
      }
      template := template.(version := template.version + 1);
      templateRepo := templateRepo[id := template];
      return Ok(template);
    }

    method Rollback(id: Id, version: nat) returns (result: Result)
      modifies this
      ensures (AsStore(), result) == Apply(old(AsStore()), Op.Rollback(id, version), compiles)
    {
      if id !in templateRepo {
        return NotFound;
      }
      var template := templateRepo[id];
      if (id, version) !in versionRepo {
        return NotFound;
      }
      var target := versionRepo[(id, version)];
      Snapshot(id, template);
      template := template.(subject := target.subject, htmlBody := target.htmlBody, version := template.version + 1);
      templateRepo := templateRepo[id := template];
      return Ok(template);
    }
  }
}

/** The store against plain histories that are only ever appended to. */
module TemplateHistory {
  import opened Wrappers
  import opened NotificationTemplates

  /** Version `k` of a template is entry `k - 1` of its history. */
  datatype History = History(name: string, contents: seq<Content>)

  type Histories = map<Id, History>

  function Append(h: Histories, id: Id, content: Content): Histories
    requires id in h
  {
    h[id := h[id].(contents := h[id].contents + [content])]
  }

  /** What each operation does to the histories; a rollback can only name a version that is not the current one. */
  function Record(h: Histories, op: Op, compiles: Compiler): Histories {
    match op
    case Create(id, name, content) =>
      if Compiles(compiles, content.subject, content.htmlBody) && forall x | x in h :: h[x].name != name
      then h[id := History(name, [content])]
      else h
    case Update(id, edit) =>
      if id in h && h[id].contents != [] && Compiles(compiles, Or(edit.subject, ""), Or(edit.htmlBody, ""))
      then
        var last := h[id].contents[|h[id].contents| - 1];
        Append(h, id, Content(Or(edit.subject, last.subject), Or(edit.htmlBody, last.htmlBody)))
      else h
    case Rollback(id, version) =>
      if id in h && 1 <= version < |h[id].contents| then Append(h, id, h[id].contents[version - 1]) else h
  }

  /** The database makes up an identifier that is not in use. */
  predicate FreshIds(s: Store, op: Op) {
    op.Create? ==> op.id !in s.templates
  }

  predicate Possible(ops: seq<Op>, compiles: Compiler) {
    ops == [] || (Possible(ops[..|ops| - 1], compiles) && FreshIds(Run(ops[..|ops| - 1], compiles), ops[|ops| - 1]))
  }

  function Run(ops: seq<Op>, compiles: Compiler): Store {
    if ops == [] then Store(map[], map[])
    else Apply(Run(ops[..|ops| - 1], compiles), ops[|ops| - 1], compiles).0
  }

  function Recorded(ops: seq<Op>, compiles: Compiler): Histories {
    if ops == [] then map[]
    else Record(Recorded(ops[..|ops| - 1], compiles), ops[|ops| - 1], compiles)
  }

  /** The live row is the end of the history, and the snapshots are exactly the rest of it. */
  predicate RowShows(s: Store, id: Id, h: History)
    requires id in s.templates
  {
    && h.contents != []
    && var last := h.contents[|h.contents| - 1];
       s.templates[id] == Template(h.name, last.subject, last.htmlBody, |h.contents|)
  }

  predicate SnapshotShows(s: Store, h: Histories, id: Id, k: nat) {
    && ((id, k) in s.versions <==> id in h && 1 <= k < |h[id].contents|)
    && ((id, k) in s.versions && id in h && 1 <= k < |h[id].contents| ==> s.versions[(id, k)] == h[id].contents[k - 1])
  }

  ghost predicate Shows(s: Store, h: Histories) {
    && s.templates.Keys == h.Keys
    && (forall id | id in h :: RowShows(s, id, h[id]))
    && (forall id: Id, k: nat :: SnapshotShows(s, h, id, k))
  }

  lemma MoveOnSnapshots(s: Store, h: Histories, id: Id, content: Content, x: Id, k: nat)
    requires id in s.templates && id in h && RowShows(s, id, h[id]) && SnapshotShows(s, h, x, k)
    ensures SnapshotShows(MoveOn(s, id, content.subject, content.htmlBody), Append(h, id, content), x, k)
  {
    var t, g := MoveOn(s, id, content.subject, content.htmlBody), Append(h, id, content);
    assert x != id && x in h ==> g[x] == h[x];
    assert (x, k) != (id, s.templates[id].version) ==> ((x, k) in t.versions <==> (x, k) in s.versions);
  }

  lemma MoveOnShows(s: Store, h: Histories, id: Id, content: Content)
    requires Shows(s, h) && id in h
    ensures Shows(MoveOn(s, id, content.subject, content.htmlBody), Append(h, id, content))
  {
    var t, g := MoveOn(s, id, content.subject, content.htmlBody), Append(h, id, content);
    assert RowShows(s, id, h[id]) && RowShows(t, id, g[id]);
    forall x | x in g ensures RowShows(t, x, g[x]) {
      if x != id {
        assert RowShows(s, x, h[x]);
      }
    }
    forall x: Id, k: nat ensures SnapshotShows(t, g, x, k) {
      MoveOnSnapshots(s, h, id, content, x, k);
    }
    hide RowShows, SnapshotShows;
  }

  lemma CreateShows(s: Store, h: Histories, id: Id, name: string, content: Content)
    requires Shows(s, h) && id !in s.templates
    ensures NameTaken(s, name) <==> !forall x | x in h :: h[x].name != name
    ensures Shows(s.(templates := s.templates[id := Template(name, content.subject, content.htmlBody, 1)]),
      h[id := History(name, [content])])
  {
    var t := s.(templates := s.templates[id := Template(name, content.subject, content.htmlBody, 1)]);
    var g := h[id := History(name, [content])];
    forall x | x in h ensures s.templates[x].name == h[x].name && RowShows(t, x, g[x]) {
      assert RowShows(s, x, h[x]);
    }
    forall x: Id, k: nat ensures SnapshotShows(t, g, x, k) {
      assert SnapshotShows(s, h, x, k);
    }
    assert RowShows(t, id, g[id]);
    hide RowShows, SnapshotShows;
  }

  /** Every operation does to the store what it does to the histories. */
  lemma Refines(s: Store, h: Histories, op: Op, compiles: Compiler)
    requires Shows(s, h) && FreshIds(s, op)
    ensures Shows(Apply(s, op, compiles).0, Record(h, op, compiles))
  {
    hide SnapshotShows, Compiles, NameTaken;
    match op
    case Create(id, name, content) =>
      CreateShows(s, h, id, name, content);
    case Update(id, edit) =>
      if id in h {
        assert RowShows(s, id, h[id]);
        var last := h[id].contents[|h[id].contents| - 1];
        MoveOnShows(s, h, id, Content(Or(edit.subject, last.subject), Or(edit.htmlBody, last.htmlBody)));
      }
      hide Shows;
    case Rollback(id, version) =>
      RollbackShows(s, h, id, version, compiles);
  }

  lemma RollbackShows(s: Store, h: Histories, id: Id, version: nat, compiles: Compiler)
    requires Shows(s, h)
    ensures Shows(Apply(s, Rollback(id, version), compiles).0, Record(h, Rollback(id, version), compiles))
  {
    assert SnapshotShows(s, h, id, version);
    if id in h && 1 <= version < |h[id].contents| {
      MoveOnShows(s, h, id, h[id].contents[version - 1]);
    }
    hide Shows, Compiles, NameTaken;
  }

  /**
   * After any operations the store shows the histories: a template's snapshots
   * are exactly versions 1 to current - 1, and snapshot k is the content that
   * was live while the version was k.
   */
  lemma {:induction false} StoreShowsHistory(ops: seq<Op>, compiles: Compiler)
    requires Possible(ops, compiles)
    ensures Shows(Run(ops, compiles), Recorded(ops, compiles))
  {
    hide Shows, Apply, Record, FreshIds;
    if ops == [] {
      NothingShows();
    } else {
      StoreShowsHistory(ops[..|ops| - 1], compiles);
      Refines(Run(ops[..|ops| - 1], compiles), Recorded(ops[..|ops| - 1], compiles), ops[|ops| - 1], compiles);
    }
  }

  lemma NothingShows()
    ensures Shows(Store(map[], map[]), map[])
  {
  }

  lemma RecordAppends(h: Histories, op: Op, compiles: Compiler, id: Id)
    requires id in h && (op.Create? ==> op.id !in h)
    ensures id in Record(h, op, compiles) && h[id].contents <= Record(h, op, compiles)[id].contents
  {
  }

  /** Histories are never rewritten: what was recorded stays, in place, whatever comes after. */
  lemma {:induction false} HistoryOnlyGrows(ops: seq<Op>, n: nat, compiles: Compiler, id: Id)
    requires Possible(ops, compiles) && n <= |ops| && id in Recorded(ops[..n], compiles)
    ensures id in Recorded(ops, compiles)
    ensures Recorded(ops[..n], compiles)[id].contents <= Recorded(ops, compiles)[id].contents
  {
    hide Record, Run, Apply;
    if n == |ops| {
      assert ops[..n] == ops;
    } else {
      var front := ops[..|ops| - 1];
      assert front[..n] == ops[..n];
      HistoryOnlyGrows(front, n, compiles, id);
      StoreShowsHistory(front, compiles);
      assert Run(front, compiles).templates.Keys == Recorded(front, compiles).Keys;
      RecordAppends(Recorded(front, compiles), ops[|ops| - 1], compiles, id);
    }
  }

  /** A snapshot, once taken, never changes and never goes away. */
  lemma SnapshotsAreImmutable(ops: seq<Op>, n: nat, compiles: Compiler, id: Id, k: nat)
    requires n <= |ops| && Possible(ops, compiles) && Possible(ops[..n], compiles)
    requires (id, k) in Run(ops[..n], compiles).versions
    ensures (id, k) in Run(ops, compiles).versions
    ensures Run(ops, compiles).versions[(id, k)] == Run(ops[..n], compiles).versions[(id, k)]
  {
    StoreShowsHistory(ops, compiles);
    StoreShowsHistory(ops[..n], compiles);
    hide Run, Recorded, RowShows;
    assert SnapshotShows(Run(ops[..n], compiles), Recorded(ops[..n], compiles), id, k);
    HistoryOnlyGrows(ops, n, compiles, id);
    assert SnapshotShows(Run(ops, compiles), Recorded(ops, compiles), id, k);
  }

  /**
   * A rollback answers with the content that was live at version `v`, under a
   * version number without a snapshot, and keeps the content it replaces.
   */
  predicate Restores(s: Store, h: History, id: Id, v: nat, after: Store, result: Result)
    requires id in s.templates
  {
    var current := s.templates[id];
    if 1 <= v < current.version then
      && v <= |h.contents|
      && result.Ok?
      && result.template
         == Template(current.name, h.contents[v - 1].subject, h.contents[v - 1].htmlBody, current.version + 1)
      && (id, current.version + 1) !in after.versions
      && (id, current.version) in after.versions
      && after.versions[(id, current.version)] == Content(current.subject, current.htmlBody)
    else result == NotFound && after == s
  }

  lemma RollbackIn(s: Store, h: Histories, id: Id, v: nat, compiles: Compiler)
    requires Shows(s, h) && id in s.templates
    ensures var after := Apply(s, Rollback(id, v), compiles);
      id in h && Restores(s, h[id], id, v, after.0, after.1)
  {
    assert RowShows(s, id, h[id]);
    assert SnapshotShows(s, h, id, v);
    assert SnapshotShows(s, h, id, s.templates[id].version + 1);
    hide Shows, Compiles, NameTaken;
  }

  /** After any operations, `rollback(v)` restores version `v`, and can name exactly the versions before the current. */
  lemma RollbackRestores(ops: seq<Op>, compiles: Compiler, id: Id, v: nat)
    requires Possible(ops, compiles) && id in Run(ops, compiles).templates
    ensures var s, history := Run(ops, compiles), Recorded(ops, compiles);
      var after := Apply(s, Rollback(id, v), compiles);
      id in history && Restores(s, history[id], id, v, after.0, after.1)
  {
    StoreShowsHistory(ops, compiles);
    hide Run, Recorded, Restores, Apply, Shows;
    RollbackIn(Run(ops, compiles), Recorded(ops, compiles), id, v, compiles);
  }
}
