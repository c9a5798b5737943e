/** The file lifecycle hooks: when a model instance is deleted its stored
    files go with it, and when an instance is saved with a different file
    the old file is removed from storage.

    A file field's value is its stored file name; an empty name means the
    field has no file, and asking for its path then fails (Django raises
    ValueError). The path of a stored name is the storage folder joined
    with the name. */
module Signals {
  import opened Wrappers

  /** A field of a model, by kind: only file fields hold stored files. */
  datatype Field = OtherField(name: string) | FileField(name: string)

  /** The file storage all file fields share: the files it holds and, in
      order, the paths it was asked to delete. */
  class FileStorage {
    const root: string
    var files: set<string>
    var log: seq<string>

    constructor (root: string, files: set<string>)
      ensures this.root == root && this.files == files && log == []
    {
      this.root := root;
      this.files := files;
      log := [];
    }

    /** storage.delete(path): removes the file if it is there, and never
        fails when it is not. */
    method Delete(path: string)
      modifies this
      ensures files == old(files) - {path}
      ensures log == old(log) + [path]
    {
      files := files - {path};
      log := log + [path];
    }
  }

  /** storage.path(name) */
  function PathOf(root: string, name: string): string
  {
    root + "/" + name
  }

  /** Every file field of the model has a value on the instance. */
  predicate HasFileValues(fields: seq<Field>, values: map<string, string>)
  {
    forall k :: 0 <= k < |fields| && fields[k].FileField? ==> fields[k].name in values
  }

  /** The path of this field can be asked for: it is not a file field, or
      its file field has a file. */
  predicate Resolves(f: Field, values: map<string, string>)
    requires f.FileField? ==> f.name in values
  {
    f.OtherField? || values[f.name] != ""
  }

  /** Some file field before the end has no file, so the loop returns early. */
  predicate Aborts(fields: seq<Field>, values: map<string, string>)
    requires HasFileValues(fields, values)
  {
    exists k :: 0 <= k < |fields| && !Resolves(fields[k], values)
  }

  function Elems(paths: seq<string>): set<string>
  {
    set p | p in paths
  }

  /** The paths delete_files_on_delete deletes, in order: the path of
      each file field up to the first one without a file. */
  function OnDeletePaths(root: string, fields: seq<Field>, values: map<string, string>): seq<string>
    requires HasFileValues(fields, values)
  {
    if |fields| == 0 then []
    else
      match fields[0]
      case OtherField(_) => OnDeletePaths(root, fields[1..], values)
      case FileField(n) =>
        if values[n] == "" then []
        else [PathOf(root, values[n])] + OnDeletePaths(root, fields[1..], values)
  }

  /** The paths delete_files_on_change deletes, in order: the path of the
      old file of each file field whose stored name changed, up to the first
      file field without an old file. */
  function OnChangePaths(root: string, fields: seq<Field>, oldValues: map<string, string>,
                         newValues: map<string, string>): seq<string>
    requires HasFileValues(fields, oldValues) && HasFileValues(fields, newValues)
  {
    if |fields| == 0 then []
    else
      match fields[0]
      case OtherField(_) => OnChangePaths(root, fields[1..], oldValues, newValues)
      case FileField(n) =>
        if oldValues[n] == "" then []
        else
          (if oldValues[n] != newValues[n] then [PathOf(root, oldValues[n])] else [])
          + OnChangePaths(root, fields[1..], oldValues, newValues)
  }

  /** delete_files_on_delete(sender, instance): the storage deletes the
      paths of OnDeletePaths, in order. `aborted` is true exactly when the
      handler returns False, which it does when a file field without a file
      stops it; otherwise it returns None. */
  method DeleteFilesOnDelete(storage: FileStorage, fields: seq<Field>, values: map<string, string>)
    returns (aborted: bool)
    requires HasFileValues(fields, values)
    modifies storage
    ensures storage.log == old(storage.log) + OnDeletePaths(storage.root, fields, values)
    ensures storage.files == old(storage.files) - Elems(OnDeletePaths(storage.root, fields, values))
    ensures aborted <==> Aborts(fields, values)
  {
    var i := 0;
    while i < |fields|
      invariant 0 <= i <= |fields|
      invariant forall k :: 0 <= k < i ==> Resolves(fields[k], values)
      invariant storage.log == old(storage.log) + OnDeletePaths(storage.root, fields[..i], values)
      invariant storage.files == old(storage.files) - Elems(OnDeletePaths(storage.root, fields[..i], values))
    {
      assert fields[..i + 1] == fields[..i] + [fields[i]];
      OnDeleteAppend(storage.root, fields[..i], [fields[i]], values);
      if fields[i].FileField? {
        var name := values[fields[i].name];
        if name == "" {
          OnDeleteStopsAt(storage.root, fields, values, i);
          return true;
        }
        storage.Delete(PathOf(storage.root, name));
      }
      i := i + 1;
    }
    assert fields[..i] == fields;
    return false;
  }

  /** delete_files_on_change(sender, instance): nothing happens for an
      instance without a primary key (None or 0) or whose row is gone from
      `table`; otherwise the old files of the changed file fields are
      deleted, in order, up to the first file field whose old value has no
      file. `aborted` is true exactly when the handler returns False; it
      returns None when the loop runs to its end. */
  method DeleteFilesOnChange(storage: FileStorage, fields: seq<Field>, table: map<int, map<string, string>>,
                             pk: Option<int>, values: map<string, string>)
    returns (aborted: bool)
    requires HasFileValues(fields, values)
    requires forall key :: key in table ==> HasFileValues(fields, table[key])
    modifies storage
    ensures pk.None? || pk.value == 0 || pk.value !in table ==>
      aborted && storage.log == old(storage.log) && storage.files == old(storage.files)
    ensures pk.Some? && pk.value != 0 && pk.value in table ==>
      var deleted := OnChangePaths(storage.root, fields, table[pk.value], values);
      storage.log == old(storage.log) + deleted
      && storage.files == old(storage.files) - Elems(deleted)
      && (aborted <==> Aborts(fields, table[pk.value]))
  {
    if pk.None? || pk.value == 0 {
      return true;
    }
    if pk.value !in table {
      return true;
    }
    var oldValues := table[pk.value];
    var i := 0;
    while i < |fields|
      invariant 0 <= i <= |fields|
      invariant forall k :: 0 <= k < i ==> Resolves(fields[k], oldValues)
      invariant storage.log == old(storage.log) + OnChangePaths(storage.root, fields[..i], oldValues, values)
      invariant storage.files
        == old(storage.files) - Elems(OnChangePaths(storage.root, fields[..i], oldValues, values))
    {
      assert fields[..i + 1] == fields[..i] + [fields[i]];
      OnChangeAppend(storage.root, fields[..i], [fields[i]], oldValues, values);
      if fields[i].FileField? {
        var oldName := oldValues[fields[i].name];
        if oldName == "" {
          OnChangeStopsAt(storage.root, fields, oldValues, values, i);
          return true;
        }
        if oldName != values[fields[i].name] {
          storage.Delete(PathOf(storage.root, oldName));
        }
      }
      i := i + 1;
    }
    assert fields[..i] == fields;
    return false;
  }

  /** Deleting along fields `a` and then `b` when nothing in `a` stops the loop. */
  lemma {:induction false} OnDeleteAppend(root: string, a: seq<Field>, b: seq<Field>, values: map<string, string>)
    requires HasFileValues(a, values) && HasFileValues(b, values)
    requires forall k :: 0 <= k < |a| ==> Resolves(a[k], values)
    ensures HasFileValues(a + b, values)
    ensures OnDeletePaths(root, a + b, values) == OnDeletePaths(root, a, values) + OnDeletePaths(root, b, values)
    decreases |a|
  {
    assert forall k :: 0 <= k < |a + b| ==> (a + b)[k] == if k < |a| then a[k] else b[k - |a|];
    if |a| == 0 {
      assert a + b == b;
    } else {
      assert (a + b)[0] == a[0];
      assert (a + b)[1..] == a[1..] + b;
      assert Resolves(a[0], values);
      OnDeleteAppend(root, a[1..], b, values);
    }
  }

  /** The same for the change loop. */
  lemma {:induction false} OnChangeAppend(root: string, a: seq<Field>, b: seq<Field>,
                                         oldValues: map<string, string>, newValues: map<string, string>)
    requires HasFileValues(a, oldValues) && HasFileValues(b, oldValues)
    requires HasFileValues(a, newValues) && HasFileValues(b, newValues)
    requires forall k :: 0 <= k < |a| ==> Resolves(a[k], oldValues)
    ensures HasFileValues(a + b, oldValues) && HasFileValues(a + b, newValues)
    ensures OnChangePaths(root, a + b, oldValues, newValues)
      == OnChangePaths(root, a, oldValues, newValues) + OnChangePaths(root, b, oldValues, newValues)
    decreases |a|
  {
    assert forall k :: 0 <= k < |a + b| ==> (a + b)[k] == if k < |a| then a[k] else b[k - |a|];
    if |a| == 0 {
      assert a + b == b;
    } else {
      assert (a + b)[0] == a[0];
      assert (a + b)[1..] == a[1..] + b;
      assert Resolves(a[0], oldValues);
      OnChangeAppend(root, a[1..], b, oldValues, newValues);
    }
  }

  /** A file field without a file ends the delete loop: no field from it
      on has its file deleted. */
  lemma {:induction false} OnDeleteStopsAt(root: string, fields: seq<Field>, values: map<string, string>, k: nat)
    requires HasFileValues(fields, values)
    requires k < |fields| && !Resolves(fields[k], values)
    ensures OnDeletePaths(root, fields, values) == OnDeletePaths(root, fields[..k], values)
    decreases k
  {
    if k > 0 {
      assert fields[1..][..k - 1] == fields[..k][1..];
      assert fields[..k][0] == fields[0];
      OnDeleteStopsAt(root, fields[1..], values, k - 1);
    }
  }

  /** A file field without an old file ends the change loop. */
  lemma {:induction false} OnChangeStopsAt(root: string, fields: seq<Field>, oldValues: map<string, string>,
                                          newValues: map<string, string>, k: nat)
    requires HasFileValues(fields, oldValues) && HasFileValues(fields, newValues)
    requires k < |fields| && !Resolves(fields[k], oldValues)
    ensures OnChangePaths(root, fields, oldValues, newValues) == OnChangePaths(root, fields[..k], oldValues, newValues)
    decreases k
  {
    if k > 0 {
      assert fields[1..][..k - 1] == fields[..k][1..];
      assert fields[..k][0] == fields[0];
      OnChangeStopsAt(root, fields[1..], oldValues, newValues, k - 1);
    }
  }

  /** Without a file field lacking its file, the delete handler deletes
      the path of every file field and nothing else. */
  lemma {:induction false} OnDeleteAll(root: string, fields: seq<Field>, values: map<string, string>, p: string)
    requires HasFileValues(fields, values) && !Aborts(fields, values)
    ensures p in OnDeletePaths(root, fields, values)
      <==> exists k :: 0 <= k < |fields| && fields[k].FileField? && p == PathOf(root, values[fields[k].name])
    decreases |fields|
  {
    if |fields| > 0 {
      assert forall k :: 0 <= k < |fields| - 1 ==> fields[1..][k] == fields[k + 1];
      OnDeleteAll(root, fields[1..], values, p);
      if p in OnDeletePaths(root, fields[1..], values) {
        var k :| 0 <= k < |fields[1..]| && fields[1..][k].FileField?
          && p == PathOf(root, values[fields[1..][k].name]);
        assert fields[k + 1] == fields[1..][k];
      }
      if exists k :: 0 <= k < |fields| && fields[k].FileField? && p == PathOf(root, values[fields[k].name]) {
        var k :| 0 <= k < |fields| && fields[k].FileField? && p == PathOf(root, values[fields[k].name]);
        if k > 0 {
          assert fields[1..][k - 1] == fields[k];
        }
      }
    }
  }

  /** The file fields of the model, in order. */
  function FileFields(fields: seq<Field>): (r: seq<Field>)
    ensures forall k :: 0 <= k < |r| ==> r[k].FileField?
    ensures forall f :: f in r <==> f in fields && f.FileField?
  {
    if |fields| == 0 then []
    else
      assert forall f :: f in fields <==> f == fields[0] || f in fields[1..];
      (if fields[0].FileField? then [fields[0]] else []) + FileFields(fields[1..])
  }

  /** Non-file fields play no part: the delete handler deletes the same
      paths when they are taken out. */
  lemma {:induction false} OnDeleteOnlyFiles(root: string, fields: seq<Field>, values: map<string, string>)
    requires HasFileValues(fields, values)
    ensures HasFileValues(FileFields(fields), values)
    ensures OnDeletePaths(root, fields, values) == OnDeletePaths(root, FileFields(fields), values)
    decreases |fields|
  {
    if |fields| > 0 {
      OnDeleteOnlyFiles(root, fields[1..], values);
      var rest := FileFields(fields[1..]);
      if fields[0].FileField? {
        var r := [fields[0]] + rest;
        assert r[0] == fields[0] && r[1..] == rest;
        assert forall k :: 0 <= k < |r| && k > 0 ==> r[k] == rest[k - 1];
      } else {
        assert [] + rest == rest;
      }
    }
  }

  /** Fields whose stored names did not change keep their files: the
      change handler deletes nothing when no file field changed. */
  lemma {:induction false} OnChangeUnchanged(root: string, fields: seq<Field>,
                                            oldValues: map<string, string>, newValues: map<string, string>)
    requires HasFileValues(fields, oldValues) && HasFileValues(fields, newValues)
    requires forall k :: 0 <= k < |fields| && fields[k].FileField? ==>
      oldValues[fields[k].name] == newValues[fields[k].name]
    ensures OnChangePaths(root, fields, oldValues, newValues) == []
    decreases |fields|
  {
    if |fields| > 0 {
      assert forall k :: 0 <= k < |fields| - 1 ==> fields[1..][k] == fields[k + 1];
      OnChangeUnchanged(root, fields[1..], oldValues, newValues);
    }
  }

  /** Every path the change handler deletes is the old file of a file field
      whose stored name changed, and so is never that field's new file. */
  lemma {:induction false} OnChangeDeletesOldOnly(root: string, fields: seq<Field>,
                                                 oldValues: map<string, string>, newValues: map<string, string>,
                                                 p: string)
    requires HasFileValues(fields, oldValues) && HasFileValues(fields, newValues)
    requires p in OnChangePaths(root, fields, oldValues, newValues)
    ensures exists k :: ChangedOldPath(root, fields, oldValues, newValues, k, p)
    decreases |fields|
  {
    var n := fields[0].name;
    if fields[0].FileField? && oldValues[n] != newValues[n] && p == PathOf(root, oldValues[n]) {
      PathOfInjective(root, oldValues[n], newValues[n]);
      assert ChangedOldPath(root, fields, oldValues, newValues, 0, p);
    } else {
      OnChangeDeletesOldOnly(root, fields[1..], oldValues, newValues, p);
      var k :| ChangedOldPath(root, fields[1..], oldValues, newValues, k, p);
      assert fields[k + 1] == fields[1..][k];
      assert ChangedOldPath(root, fields, oldValues, newValues, k + 1, p);
    }
  }

  /** `p` is the old file of the file field at `k`, whose stored name
      changed, and not its new file. */
  predicate ChangedOldPath(root: string, fields: seq<Field>, oldValues: map<string, string>,
                           newValues: map<string, string>, k: int, p: string)
    requires HasFileValues(fields, oldValues) && HasFileValues(fields, newValues)
  {
    0 <= k < |fields| && fields[k].FileField?
    && oldValues[fields[k].name] != newValues[fields[k].name]
    && p == PathOf(root, oldValues[fields[k].name])
    && p != PathOf(root, newValues[fields[k].name])
  }

  /** Different names are stored at different paths. */
  lemma PathOfInjective(root: string, a: string, b: string)
    requires a != b
    ensures PathOf(root, a) != PathOf(root, b)
  {
    var prefix := root + "/";
    assert PathOf(root, a) == prefix + a && PathOf(root, b) == prefix + b;
    assert (prefix + a)[|prefix|..] == a;
    assert (prefix + b)[|prefix|..] == b;
  }
}
