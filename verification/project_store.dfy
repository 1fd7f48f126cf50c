/** The `manim_projects` table as a map from project id to row, with the six
    queries the handlers issue against it. Each statement is its own
    auto-committed step, so every query here is a pure function from the table
    before to its answer (and, for writes, the table after). */
module ProjectStore {

  import opened Base
  import opened Models

  type Store = map<Uuid, Project>

  /** Every row sits under its own id. */
  predicate WellKeyed(s: Store)
  {
    forall id :: id in s ==> s[id].id == id
  }

  /** No owner has two projects with the same name. The schema is not part of
      this model, so the table does not enforce this; the handlers keep it. */
  predicate NamesUniquePerOwner(s: Store)
  {
    forall a, b :: a in s && b in s && a != b && s[a].userId == s[b].userId ==> s[a].name != s[b].name
  }

  /** A table with the same ids, names and owners keeps names unique. */
  lemma NamesUniqueTransfers(s: Store, t: Store)
    requires NamesUniquePerOwner(s) && t.Keys == s.Keys
    requires forall k :: k in s ==> t[k].name == s[k].name && t[k].userId == s[k].userId
    ensures NamesUniquePerOwner(t)
  {
  }

  /** `NoRows` is `sql.ErrNoRows`; `DuplicateKey` a primary-key violation. */
  datatype StoreError = NoRows | DuplicateKey

  /** The columns the caller supplies to an insert. */
  datatype NewProject = NewProject(
    userId: Uuid,
    name: string,
    description: string,
    prompt: string,
    renderStatus: string,
    videoUrl: Option<string>)

  datatype Created = Created(project: Project, store: Store)

  const DefaultStatus: string := "pending"

  /** Inserts a row under the database-generated `newId` at instant `now`;
      an empty status is stored as `"pending"`. */
  function Create(s: Store, np: NewProject, newId: Uuid, now: Time): (r: Result<Created, StoreError>)
    ensures r.Err? <==> newId in s
    ensures r.Err? ==> r.error == DuplicateKey
    ensures r.Ok? ==>
      var p := r.value.project;
      && p.id == newId && p.userId == np.userId
      && p.name == np.name && p.description == np.description && p.prompt == np.prompt
      && p.videoUrl == np.videoUrl
      && (np.renderStatus == "" ==> p.renderStatus == DefaultStatus)
      && (np.renderStatus != "" ==> p.renderStatus == np.renderStatus)
      && p.createdAt == now && p.updatedAt == now
    ensures r.Ok? ==>
      && r.value.store.Keys == s.Keys + {newId}
      && r.value.store[newId] == r.value.project
      && forall id :: id in s ==> r.value.store[id] == s[id]
    ensures r.Ok? && WellKeyed(s) ==> WellKeyed(r.value.store)
  {
    if newId in s then Err(DuplicateKey)
    else
      var status := if np.renderStatus == "" then DefaultStatus else np.renderStatus;
      var p := Project(newId, np.userId, np.name, np.description, np.prompt, status, np.videoUrl, now, now);
      Ok(Created(p, s[newId := p]))
  }

  /** The row with id `id`; an absent id is "none", not an error. */
  function FindById(s: Store, id: Uuid): (r: Option<Project>)
    ensures r.None? <==> id !in s
    ensures r.Some? ==> r.value == s[id]
  {
    if id in s then Some(s[id]) else None
  }

  function NamedIds(s: Store, name: string, owner: Uuid): set<Uuid>
  {
    set id | id in s && s[id].name == name && s[id].userId == owner
  }

  /** A row whose name and owner are exactly `name` and `owner`, or "none" when
      there is no such row. Of several matches the one with the least id is
      returned. */
  function FindByNameAndOwner(s: Store, name: string, owner: Uuid): (r: Option<Project>)
    ensures r.None? <==> forall id :: id in s ==> !(s[id].name == name && s[id].userId == owner)
    ensures r.Some? ==> r.value in s.Values && r.value.name == name && r.value.userId == owner
  {
    var ids := NamedIds(s, name, owner);
    if ids == {} then
      assert forall id :: id in s && s[id].name == name && s[id].userId == owner ==> id in ids;
      None
    else
      var id := Least(ids);
      Some(s[id])
  }

  /** Row `x` is listed no later than row `y`: newer first, ties by id. */
  predicate ListedBefore(s: Store, x: Uuid, y: Uuid)
    requires x in s && y in s
  {
    s[x].createdAt > s[y].createdAt || (s[x].createdAt == s[y].createdAt && x <= y)
  }

  lemma ListedBeforeTotal(s: Store, x: Uuid, y: Uuid)
    requires x in s && y in s
    ensures ListedBefore(s, x, y) || ListedBefore(s, y, x)
  {
  }

  lemma ListedBeforeTransitive(s: Store, x: Uuid, y: Uuid, z: Uuid)
    requires x in s && y in s && z in s
    requires ListedBefore(s, x, y) && ListedBefore(s, y, z)
    ensures ListedBefore(s, x, z)
  {
  }

  lemma {:induction false} HasFirst(s: Store, ids: set<Uuid>)
    requires ids != {} && ids <= s.Keys
    ensures exists x :: x in ids && forall y :: y in ids ==> ListedBefore(s, x, y)
    decreases |ids|
  {
    var x :| x in ids;
    var rest := ids - {x};
    if rest == {} {
      assert ids == {x};
      FirstOfSingle(s, x);
    } else {
      HasFirst(s, rest);
      var m :| m in rest && forall y :: y in rest ==> ListedBefore(s, m, y);
      FirstOfAdded(s, rest, x, m);
      assert rest + {x} == ids;
    }
  }

  lemma FirstOfSingle(s: Store, x: Uuid)
    requires x in s
    ensures forall y :: y in {x} ==> ListedBefore(s, x, y)
  {
  }

  /** Adding `x` to a set whose first row is `m`: the first of the two is first. */
  lemma FirstOfAdded(s: Store, rest: set<Uuid>, x: Uuid, m: Uuid)
    requires rest <= s.Keys && x in s && m in rest
    requires forall y :: y in rest ==> ListedBefore(s, m, y)
    ensures exists f :: f in rest + {x} && forall y :: y in rest + {x} ==> ListedBefore(s, f, y)
  {
    var ids := rest + {x};
    if ListedBefore(s, x, m) {
      forall y | y in ids
        ensures ListedBefore(s, x, y)
      {
        if y != x {
          ListedBeforeTransitive(s, x, m, y);
        }
      }
      assert x in ids;
    } else {
      ListedBeforeTotal(s, x, m);
      assert m in ids;
    }
  }

  function First(s: Store, ids: set<Uuid>): (x: Uuid)
    requires ids != {} && ids <= s.Keys
    ensures x in ids
    ensures forall y :: y in ids ==> ListedBefore(s, x, y)
  {
    HasFirst(s, ids);
    var x :| x in ids && forall y :: y in ids ==> ListedBefore(s, x, y); x
  }

  /** The ids `ids` in listing order: each exactly once, newest first. */
  function Ordered(s: Store, ids: set<Uuid>): (r: seq<Uuid>)
    requires ids <= s.Keys
    ensures |r| == |ids|
    ensures forall i :: 0 <= i < |r| ==> r[i] in ids
    ensures forall id :: id in ids ==> id in r
    ensures forall i, j :: 0 <= i < j < |r| ==> r[i] != r[j]
    ensures forall i, j :: 0 <= i < j < |r| ==> s[r[i]].createdAt >= s[r[j]].createdAt
    decreases |ids|
  {
    if ids == {} then []
    else
      var x := First(s, ids);
      var rest := Ordered(s, ids - {x});
      PrependFirst(s, ids, x, rest);
      [x] + rest
  }

  /** Putting the first row of `ids` before an ordering of the others orders
      all of `ids`. */
  lemma PrependFirst(s: Store, ids: set<Uuid>, x: Uuid, rest: seq<Uuid>)
    requires ids <= s.Keys && x in ids
    requires forall y :: y in ids ==> ListedBefore(s, x, y)
    requires |rest| == |ids - {x}|
    requires forall i :: 0 <= i < |rest| ==> rest[i] in ids - {x}
    requires forall id :: id in ids - {x} ==> id in rest
    requires forall i, j :: 0 <= i < j < |rest| ==> rest[i] != rest[j]
    requires forall i, j :: 0 <= i < j < |rest| ==> s[rest[i]].createdAt >= s[rest[j]].createdAt
    ensures var r := [x] + rest;
      && |r| == |ids|
      && (forall i :: 0 <= i < |r| ==> r[i] in ids)
      && (forall id :: id in ids ==> id in r)
      && (forall i, j :: 0 <= i < j < |r| ==> r[i] != r[j])
      && (forall i, j :: 0 <= i < j < |r| ==> s[r[i]].createdAt >= s[r[j]].createdAt)
  {
    var r := [x] + rest;
    assert |ids - {x}| == |ids| - 1;
    forall i, j | 0 <= i < j < |r|
      ensures r[i] != r[j] && s[r[i]].createdAt >= s[r[j]].createdAt
    {
      assert r[j] == rest[j - 1];
      if i == 0 {
        assert ListedBefore(s, x, rest[j - 1]);
      } else {
        assert r[i] == rest[i - 1];
      }
    }
    forall id | id in ids
      ensures id in r
    {
      if id != x {
        assert id in rest;
      }
    }
  }

  function OwnedIds(s: Store, owner: Uuid): set<Uuid>
  {
    set id | id in s && s[id].userId == owner
  }

  function Rows(s: Store, ids: seq<Uuid>): (r: seq<Project>)
    requires forall i :: 0 <= i < |ids| ==> ids[i] in s
    ensures |r| == |ids|
    ensures forall i :: 0 <= i < |ids| ==> r[i] == s[ids[i]]
  {
    if |ids| == 0 then [] else [s[ids[0]]] + Rows(s, ids[1..])
  }

  /** The rows owned by `owner`, each once, ordered by creation time, newest
      first (`ORDER BY created_at DESC`). */
  function ListByOwner(s: Store, owner: Uuid): (r: seq<Project>)
    ensures |r| == |OwnedIds(s, owner)|
    ensures forall i :: 0 <= i < |r| ==> r[i] in s.Values && r[i].userId == owner
    ensures forall id :: id in s && s[id].userId == owner ==> s[id] in r
    ensures forall i, j :: 0 <= i < j < |r| ==> r[i].createdAt >= r[j].createdAt
    ensures WellKeyed(s) ==> forall i, j :: 0 <= i < j < |r| ==> r[i].id != r[j].id
  {
    var ids := Ordered(s, OwnedIds(s, owner));
    RowsOfOwned(s, owner, ids);
    Rows(s, ids)
  }

  /** The rows of an ordering of the owner's ids carry the ordering's facts
      over to the rows. */
  lemma RowsOfOwned(s: Store, owner: Uuid, ids: seq<Uuid>)
    requires forall i :: 0 <= i < |ids| ==> ids[i] in OwnedIds(s, owner)
    requires forall id :: id in OwnedIds(s, owner) ==> id in ids
    requires forall i, j :: 0 <= i < j < |ids| ==> ids[i] != ids[j]
    requires forall i, j :: 0 <= i < j < |ids| ==> s[ids[i]].createdAt >= s[ids[j]].createdAt
    ensures var r := Rows(s, ids);
      && (forall i :: 0 <= i < |r| ==> r[i] in s.Values && r[i].userId == owner)
      && (forall id :: id in s && s[id].userId == owner ==> s[id] in r)
      && (forall i, j :: 0 <= i < j < |r| ==> r[i].createdAt >= r[j].createdAt)
      && (WellKeyed(s) ==> forall i, j :: 0 <= i < j < |r| ==> r[i].id != r[j].id)
  {
    var r := Rows(s, ids);
    forall i | 0 <= i < |r|
      ensures r[i] in s.Values && r[i].userId == owner
    {
      assert ids[i] in OwnedIds(s, owner);
    }
    forall id | id in s && s[id].userId == owner
      ensures s[id] in r
    {
      assert id in OwnedIds(s, owner);
      var i :| 0 <= i < |ids| && ids[i] == id;
      assert r[i] == s[id];
    }
    if WellKeyed(s) {
      forall i, j | 0 <= i < j < |r|
        ensures r[i].id != r[j].id
      {
        assert ids[i] in s && ids[j] in s;
        assert r[i].id == ids[i] && r[j].id == ids[j];
      }
    }
  }

  /** `UPDATE … WHERE id = p.id AND user_id = p.userId`: overwrites the mutable
      columns of the one matching row and stamps it with `now`; with no
      matching row it reports `NoRows` and changes nothing. */
  function Update(s: Store, p: Project, now: Time): (r: Result<Store, StoreError>)
    ensures r.Ok? <==> p.id in s && s[p.id].userId == p.userId
    ensures r.Err? ==> r.error == NoRows
    ensures r.Ok? ==> r.value.Keys == s.Keys
    ensures r.Ok? ==>
      var row := r.value[p.id];
      && row.name == p.name && row.description == p.description && row.prompt == p.prompt
      && row.renderStatus == p.renderStatus && row.videoUrl == p.videoUrl
      && row.updatedAt == now
      && row.id == s[p.id].id && row.userId == s[p.id].userId && row.createdAt == s[p.id].createdAt
    ensures r.Ok? ==> forall id :: id in s && id != p.id ==> r.value[id] == s[id]
    ensures r.Ok? && WellKeyed(s) ==> WellKeyed(r.value)
  {
    if p.id in s && s[p.id].userId == p.userId then
      var row := s[p.id].(name := p.name, description := p.description, prompt := p.prompt,
                          renderStatus := p.renderStatus, videoUrl := p.videoUrl, updatedAt := now);
      Ok(s[p.id := row])
    else Err(NoRows)
  }

  /** `DELETE … WHERE id = id AND user_id = owner`: removes exactly that row,
      or reports `NoRows` when the id is absent or owned by someone else. */
  function Delete(s: Store, id: Uuid, owner: Uuid): (r: Result<Store, StoreError>)
    ensures r.Ok? <==> id in s && s[id].userId == owner
    ensures r.Err? ==> r.error == NoRows
    ensures r.Ok? ==> r.value.Keys == s.Keys - {id}
    ensures r.Ok? ==> forall k :: k in r.value ==> r.value[k] == s[k]
    ensures r.Ok? && WellKeyed(s) ==> WellKeyed(r.value)
  {
    if id in s && s[id].userId == owner then Ok(s - {id}) else Err(NoRows)
  }
  /** An inserted row is found again by its id and by its name and owner. */
  lemma CreateThenFind(s: Store, np: NewProject, newId: Uuid, now: Time)
    requires newId !in s
    ensures var c := Create(s, np, newId, now).value;
      && FindById(c.store, newId) == Some(c.project)
      && FindByNameAndOwner(c.store, np.name, np.userId).Some?
      && |ListByOwner(c.store, np.userId)| == |ListByOwner(s, np.userId)| + 1
  {
    var c := Create(s, np, newId, now).value;
    assert c.store[newId].name == np.name && c.store[newId].userId == np.userId;
    assert OwnedIds(c.store, np.userId) == OwnedIds(s, np.userId) + {newId};
  }

  /** A deleted row is gone: its id finds nothing and its owner's list is one
      shorter. */
  lemma DeleteThenFind(s: Store, id: Uuid, owner: Uuid)
    requires id in s && s[id].userId == owner
    ensures var t := Delete(s, id, owner).value;
      && FindById(t, id).None?
      && |ListByOwner(t, owner)| == |ListByOwner(s, owner)| - 1
  {
    var t := Delete(s, id, owner).value;
    assert OwnedIds(t, owner) == OwnedIds(s, owner) - {id};
  }

  /** Repeating an update at the same instant changes nothing more. */
  lemma UpdateIdempotent(s: Store, p: Project, now: Time)
    ensures Update(s, p, now).Ok? ==> Update(Update(s, p, now).value, p, now) == Update(s, p, now)
  {
    if Update(s, p, now).Ok? {
      var t := Update(s, p, now).value;
      assert t[p.id := t[p.id].(name := p.name, description := p.description, prompt := p.prompt,
                                renderStatus := p.renderStatus, videoUrl := p.videoUrl, updatedAt := now)] == t;
    }
  }
}
