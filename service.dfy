/**
 * The record store client (`measurementService`) over an in-memory stand-in
 * for the document database and the object storage: a map from document id to
 * document, a map from storage path to the file stored there, and the log
 * of the writes issued to the backend. Each `Timestamp.now()` is a reading of
 * the writing browser's clock, given as a parameter.
 */
module MeasurementService {
  import opened Wrappers
  import opened Records

  /** Why a backend call failed. */
  datatype StoreError =
    | DocumentNotFound     // `updateDoc` on an id that has no document
    | ReadOfUndefined      // `.images` read from the `undefined` data of a missing document
    | ObjectNotFound       // `deleteObject` on a path where nothing is stored
    | PermissionDenied     // the backend refuses the call

  /** A write issued to the backend, in the order issued. */
  datatype Effect =
    | AddDoc(id: string)
    | UpdateDoc(id: string)
    | DeleteDoc(id: string)
    | UploadBytes(path: string)
    | DeleteObject(path: string, ok: bool)

  /** The storage path of an uploaded file: `measurements/{measurementId}/{fileName}`. */
  function StoragePath(measurementId: string, fileName: string): string
  {
    "measurements/" + measurementId + "/" + fileName
  }

  /** A record as `getById`/`getAll` assemble it: the document id, then the document's fields. */
  function AsRecord(id: string, d: Doc): (m: Measurement)
    ensures m.id == Some(id) && m.data == d.data
    ensures m.createdAt == d.createdAt && m.updatedAt == d.updatedAt
  {
    Measurement(Some(id), d.data, d.createdAt, d.updatedAt)
  }

  /** The urls of a list of images, in order. */
  function Urls(images: seq<Image>): (r: seq<string>)
    ensures |r| == |images|
    ensures forall i :: 0 <= i < |images| ==> r[i] == images[i].url
  {
    if images == [] then [] else [images[0].url] + Urls(images[1..])
  }

  /** Whether `deleteObject` on `path` succeeds: something is stored there and the backend allows it. */
  predicate Removable(stored: map<string, File>, path: string, denied: set<string>)
  {
    path in stored && path !in denied
  }

  /** The log of attempting `deleteObject` on each path in turn, whatever the earlier attempts gave. */
  function DeleteAttempts(paths: seq<string>, stored: map<string, File>, denied: set<string>): (r: seq<Effect>)
    ensures |r| == |paths|
    ensures forall i :: 0 <= i < |paths| ==> r[i].DeleteObject? && r[i].path == paths[i]
  {
    if paths == [] then []
    else
      var ok := Removable(stored, paths[0], denied);
      [DeleteObject(paths[0], ok)] + DeleteAttempts(paths[1..], if ok then stored - {paths[0]} else stored, denied)
  }

  /** What is left stored after attempting `deleteObject` on each path in turn. */
  function AfterDeletes(stored: map<string, File>, paths: seq<string>, denied: set<string>): map<string, File>
  {
    if paths == [] then stored
    else AfterDeletes(if Removable(stored, paths[0], denied) then stored - {paths[0]} else stored, paths[1..], denied)
  }

  /** Attempting one more path appends one entry to the log and removes at most that path. */
  lemma {:induction false} AttemptOneMore(stored: map<string, File>, paths: seq<string>, p: string, denied: set<string>)
    ensures var left := AfterDeletes(stored, paths, denied);
      && DeleteAttempts(paths + [p], stored, denied)
         == DeleteAttempts(paths, stored, denied) + [DeleteObject(p, Removable(left, p, denied))]
      && AfterDeletes(stored, paths + [p], denied) == if Removable(left, p, denied) then left - {p} else left
  {
    if paths != [] {
      var next := if Removable(stored, paths[0], denied) then stored - {paths[0]} else stored;
      assert (paths + [p])[1..] == paths[1..] + [p];
      AttemptOneMore(next, paths[1..], p, denied);
    } else {
      assert [p][1..] == [];
    }
  }

  /** Attempting every path removes exactly the listed paths the backend allows, and nothing else. */
  lemma {:induction false} AfterDeletesRemovesAllowed(stored: map<string, File>, paths: seq<string>, denied: set<string>)
    ensures AfterDeletes(stored, paths, denied) == stored - (set u | u in paths && u !in denied)
  {
    if paths != [] {
      var p := paths[0];
      var next := if Removable(stored, p, denied) then stored - {p} else stored;
      AfterDeletesRemovesAllowed(next, paths[1..], denied);
      var rest := set u | u in paths[1..] && u !in denied;
      var all := set u | u in paths && u !in denied;
      assert all == rest + (if p in denied then {} else {p});
    }
  }

  /** Records ordered newest first, as `orderBy('createdAt', 'desc')` returns them. */
  ghost predicate NewestFirst(s: seq<Measurement>)
  {
    forall i, j :: 0 <= i < j < |s| ==> s[i].createdAt >= s[j].createdAt
  }

  /** Puts `m` into a newest-first list before the first record that is not newer than it. */
  function InsertNewestFirst(m: Measurement, s: seq<Measurement>): (r: seq<Measurement>)
    requires NewestFirst(s)
    ensures NewestFirst(r)
    ensures |r| == |s| + 1
    ensures forall x :: x in r <==> x in s || x == m
    ensures multiset(r) == multiset(s) + multiset{m}
  {
    if s == [] || s[0].createdAt <= m.createdAt then [m] + s
    else
      var rest := InsertNewestFirst(m, s[1..]);
      HeadIsNewest(s, m, rest);
      assert multiset(s) == multiset{s[0]} + multiset(s[1..]) by {
        assert s == [s[0]] + s[1..];
      }
      [s[0]] + rest
  }

  /** The head of a newest-first list is no older than anything in its tail, nor than an older record put among them. */
  lemma HeadIsNewest(s: seq<Measurement>, m: Measurement, rest: seq<Measurement>)
    requires NewestFirst(s) && s != [] && m.createdAt < s[0].createdAt
    requires multiset(rest) == multiset(s[1..]) + multiset{m}
    ensures forall j :: 0 <= j < |rest| ==> rest[j].createdAt <= s[0].createdAt
  {
    forall j | 0 <= j < |rest|
      ensures rest[j].createdAt <= s[0].createdAt
    {
      var x := rest[j];
      assert x in multiset(rest);
      if x != m {
        assert x in multiset(s[1..]);
        var k :| 0 <= k < |s[1..]| && s[1..][k] == x;
        assert s[k + 1] == x;
      }
    }
  }

  /** The string `/` divides a storage path back into the id and the file name it was built from. */
  lemma SplitAtFirstSlash(a: string, b: string, c: string, d: string)
    requires '/' !in a && '/' !in c
    requires a + "/" + b == c + "/" + d
    ensures a == c && b == d
  {
    var s := a + "/" + b;
    assert s == c + "/" + d;
    assert s[|a|] == '/' && s[|c|] == '/';
    assert forall k :: 0 <= k < |a| ==> s[k] == a[k] && s[k] != '/';
    assert forall k :: 0 <= k < |c| ==> s[k] == c[k] && s[k] != '/';
    assert |a| == |c|;
    assert a == s[..|a|] && c == s[..|c|];
    assert b == s[|a| + 1..] && d == s[|c| + 1..];
  }

  /**
   * Two uploads land on the same path exactly when they name the same owner
   * and the same file (for owner ids without `/`, which store-generated ids
   * and decimal timestamps never contain).
   */
  lemma StoragePathInjective(id1: string, name1: string, id2: string, name2: string)
    requires '/' !in id1 && '/' !in id2
    ensures StoragePath(id1, name1) == StoragePath(id2, name2) <==> id1 == id2 && name1 == name2
  {
    var p := "measurements/";
    if StoragePath(id1, name1) == StoragePath(id2, name2) {
      var s1 := id1 + "/" + name1;
      var s2 := id2 + "/" + name2;
      assert StoragePath(id1, name1) == p + s1;
      assert StoragePath(id2, name2) == p + s2;
      assert s1 == (p + s1)[|p|..] == (p + s2)[|p|..] == s2;
      SplitAtFirstSlash(id1, name1, id2, name2);
    }
  }

  /** `all` lists, newest first, the records of exactly the documents under the ids in `seen`, each once. */
  ghost predicate ListsNewestFirst(all: seq<Measurement>, docs: map<string, Doc>, seen: set<string>)
  {
    && seen <= docs.Keys
    && |all| == |seen|
    && NewestFirst(all)
    && (forall id :: id in seen ==> AsRecord(id, docs[id]) in all)
    && (forall m :: m in all ==> m.id.Some? && m.id.value in seen && m == AsRecord(m.id.value, docs[m.id.value]))
  }

  /** Inserting the record of one more document keeps the list exact and newest first. */
  lemma ListOneMore(all: seq<Measurement>, docs: map<string, Doc>, seen: set<string>, id: string)
    requires ListsNewestFirst(all, docs, seen)
    requires id in docs && id !in seen
    ensures ListsNewestFirst(InsertNewestFirst(AsRecord(id, docs[id]), all), docs, seen + {id})
  {
  }

  /** One step of `getAll`: the record of document `id` joins the list in its place. */
  method InsertListed(all: seq<Measurement>, docs: map<string, Doc>, ghost seen: set<string>, id: string) returns (r: seq<Measurement>)
    requires ListsNewestFirst(all, docs, seen)
    requires id in docs && id !in seen
    ensures ListsNewestFirst(r, docs, seen + {id})
  {
    ListOneMore(all, docs, seen, id);
    r := InsertNewestFirst(AsRecord(id, docs[id]), all);
  }

  /** The backend, as the service sees it. */
  class Store {
    var docs: map<string, Doc>
    var blobs: map<string, File>
    var log: seq<Effect>

    /** An empty collection and an empty bucket. */
    constructor ()
      ensures docs == map[] && blobs == map[] && log == []
    {
      docs, blobs, log := map[], map[], [];
    }

    /** `getById`: the record under `id` with that id attached, or nothing when there is no such document. */
    function GetById(id: string): (r: Option<Measurement>)
      reads this
      ensures r.None? <==> id !in docs
      ensures r.Some? ==> r.value.id == Some(id) && r.value.data == docs[id].data
      ensures r.Some? ==> r.value.createdAt == docs[id].createdAt && r.value.updatedAt == docs[id].updatedAt
    {
      if id in docs then Some(AsRecord(id, docs[id])) else None
    }

    /**
     * `create`: stamps the payload with two readings of the writer's clock,
     * `createdAt` and `updatedAt`, writes it under the id the backend picks,
     * and returns that id.
     */
    method Create(data: FormData, newId: string, createdAt: int, updatedAt: int) returns (id: string)
      requires newId !in docs
      modifies this
      ensures id == newId
      ensures docs == old(docs)[id := Doc(data, createdAt, updatedAt)]
      ensures blobs == old(blobs) && log == old(log) + [AddDoc(id)]
      ensures GetById(id).Some? && GetById(id).value.data == data
    {
      docs := docs[newId := Doc(data, createdAt, updatedAt)];
      log := log + [AddDoc(newId)];
      id := newId;
    }

    /**
     * `update`: merges the supplied fields into the document and sets
     * `updatedAt` to `now`, the writer's reading of its clock; `createdAt` and
     * the id are never written. Fails, writing nothing, when there is no
     * document under `id`.
     */
    method Update(id: string, patch: Patch, now: int) returns (r: Outcome<StoreError>)
      modifies this
      ensures blobs == old(blobs)
      ensures id !in old(docs) ==> r == Fail(DocumentNotFound) && docs == old(docs) && log == old(log)
      ensures id in old(docs) ==>
        && r == Pass
        && docs == old(docs)[id := Doc(ApplyPatch(old(docs)[id].data, patch), old(docs)[id].createdAt, now)]
        && log == old(log) + [UpdateDoc(id)]
    {
      if id !in docs {
        return Fail(DocumentNotFound);
      }
      var d := docs[id];
      docs := docs[id := Doc(ApplyPatch(d.data, patch), d.createdAt, now)];
      log := log + [UpdateDoc(id)];
      r := Pass;
    }

    /**
     * `uploadImage`: stores the file at `measurements/{measurementId}/{name}`,
     * replacing whatever was stored there, and returns an image captioned with
     * the file name whose url is that path.
     */
    method UploadImage(file: File, measurementId: string) returns (img: Image)
      modifies this
      ensures img == Image(StoragePath(measurementId, file.name), file.name)
      ensures blobs == old(blobs)[img.url := file]
      ensures docs == old(docs)
      ensures log == old(log) + [UploadBytes(img.url)]
    {
      var path := StoragePath(measurementId, file.name);
      blobs := blobs[path := file];
      log := log + [UploadBytes(path)];
      img := Image(path, file.name);
    }

    /** `deleteImage`: removes the object at `url`; fails when nothing is stored there or the backend refuses. */
    method DeleteImage(url: string, denied: set<string>) returns (r: Outcome<StoreError>)
      modifies this
      ensures docs == old(docs)
      ensures url in denied ==> r == Fail(PermissionDenied)
      ensures url !in denied && url !in old(blobs) ==> r == Fail(ObjectNotFound)
      ensures r.Pass? <==> url in old(blobs) && url !in denied
      ensures blobs == if r.Pass? then old(blobs) - {url} else old(blobs)
      ensures log == old(log) + [DeleteObject(url, r.Pass?)]
    {
      if url in denied {
        r := Fail(PermissionDenied);
      } else if url !in blobs {
        r := Fail(ObjectNotFound);
      } else {
        blobs := blobs - {url};
        r := Pass;
      }
      log := log + [DeleteObject(url, r.Pass?)];
    }

    /**
     * The image deletions of `delete`: `deleteObject` on each path in turn,
     * each failure swallowed. The paths the backend allows are removed, and
     * the documents are untouched.
     */
    method DeleteObjects(urls: seq<string>, denied: set<string>)
      modifies this
      ensures docs == old(docs)
      ensures blobs == AfterDeletes(old(blobs), urls, denied)
      ensures log == old(log) + DeleteAttempts(urls, old(blobs), denied)
    {
      ghost var blobs0, log0 := blobs, log;
      var i := 0;
      while i < |urls|
        invariant 0 <= i <= |urls|
        invariant docs == old(docs)
        invariant blobs == AfterDeletes(blobs0, urls[..i], denied)
        invariant log == log0 + DeleteAttempts(urls[..i], blobs0, denied)
      {
        AttemptOneMore(blobs0, urls[..i], urls[i], denied);
        assert urls[..i + 1] == urls[..i] + [urls[i]];
        var _ := DeleteImage(urls[i], denied);
        i := i + 1;
      }
      assert urls[..i] == urls;
    }

    /**
     * `delete`: reads the document, attempts to remove every image it lists,
     * swallowing each failure, and only then deletes the document. A missing
     * document fails on reading its images, before anything is written.
     */
    method Delete(id: string, denied: set<string>) returns (r: Outcome<StoreError>, attempted: seq<string>)
      modifies this
      ensures id !in old(docs) ==>
        && r == Fail(ReadOfUndefined) && attempted == []
        && docs == old(docs) && blobs == old(blobs) && log == old(log)
      ensures id in old(docs) ==>
        && r == Pass
        && attempted == Urls(old(docs)[id].data.images)
        && docs == old(docs) - {id}
        && blobs == old(blobs) - (set u | u in attempted && u !in denied)
        && log == old(log) + DeleteAttempts(attempted, old(blobs), denied) + [DeleteDoc(id)]
    {
      if id !in docs {
        return Fail(ReadOfUndefined), [];
      }
      attempted := Urls(docs[id].data.images);
      DeleteObjects(attempted, denied);
      AfterDeletesRemovesAllowed(old(blobs), attempted, denied);
      docs := docs - {id};
      log := log + [DeleteDoc(id)];
      r := Pass;
    }

    /**
     * `getAll`: every document as a record carrying its id, newest first.
     * Records with equal `createdAt` come in no particular order.
     */
    method GetAll() returns (all: seq<Measurement>)
      ensures |all| == |docs|
      ensures NewestFirst(all)
      ensures forall id :: id in docs ==> AsRecord(id, docs[id]) in all
      ensures forall m :: m in all ==> m.id.Some? && m.id.value in docs && m == AsRecord(m.id.value, docs[m.id.value])
    {
      all := [];
      var remaining := docs.Keys;
      ghost var seen: set<string> := {};
      while remaining != {}
        invariant seen + remaining == docs.Keys && seen !! remaining
        invariant ListsNewestFirst(all, docs, seen)
        decreases remaining
      {
        var id :| id in remaining;
        all := InsertListed(all, docs, seen, id);
        seen := seen + {id};
        remaining := remaining - {id};
      }
      assert seen == docs.Keys;
    }
  }

  /**
   * Each write is stamped with the clock of the browser that issues it. A
   * record created at `t` and then edited from a browser whose clock is `lag`
   * behind ends with `updatedAt` before `createdAt`.
   */
  method UpdateFromSlowerClock(data: FormData, patch: Patch, t: int, lag: nat) returns (stored: Doc)
    requires lag > 0
    ensures stored.createdAt == t && stored.updatedAt == t - lag
    ensures stored.updatedAt < stored.createdAt
  {
    var store := new Store();
    var id := store.Create(data, "record", t, t);
    var _ := store.Update(id, patch, t - lag);
    stored := store.docs[id];
  }

  /** In a newest-first list, a record strictly newer than all the others comes first. */
  lemma StrictlyNewestComesFirst(all: seq<Measurement>, m: Measurement)
    requires NewestFirst(all)
    requires m in all
    requires forall x :: x in all && x != m ==> x.createdAt < m.createdAt
    ensures all[0] == m
  {
    var k :| 0 <= k < |all| && all[k] == m;
    if k > 0 {
      assert all[0].createdAt >= all[k].createdAt;
    }
  }
}
