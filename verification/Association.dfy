/**
 The image-VM association table of the agent: the spec functions of `Create`,
 `Delete` and the two file operations on plain values, and the heap form of the
 same operations (a map of pointers that is updated in place).
 */
module Association {

  import opened Common

  /** One entry of the table: the path the image was first started from and its VM count. */
  datatype Entry = Entry(path: string, count: int)

  type Table = map<string, Entry>

  function Count(t: Table, img: string): int {
    if img in t then t[img].count else 0
  }

  function PathOf(t: Table, img: string): string {
    if img in t then t[img].path else ""
  }

  /** What `Delete` decides: no live association, other VMs remain, or this was the last VM. */
  datatype Verdict = Missing | Shared | Last

  function Judge(t: Table, img: string): Verdict {
    if Count(t, img) <= 0 then Missing
    else if Count(t, img) == 1 then Last
    else Shared
  }

  function Created(t: Table, img: string, path: string): Table {
    if img in t then t[img := Entry(t[img].path, t[img].count + 1)]
    else t[img := Entry(path, 1)]
  }

  /** A zero count stays in the table: only the count changes, never the set of images. */
  function Deleted(t: Table, img: string): Table {
    if Count(t, img) > 0 then t[img := Entry(t[img].path, t[img].count - 1)] else t
  }

  /** Unmarshalling into a non-nil map overwrites the entries that the file holds and keeps the others. */
  function Merged(t: Table, u: Table): Table {
    t + u
  }

  /** The association file: no bytes at all, or the encoding of a table. */
  datatype Content = Blank | Encoded(table: Table)

  function Decode(c: Content): Table {
    match c
    case Blank => map[]
    case Encoded(t) => t
  }

  /** Counts are never negative and stored paths lie under the crypto mount directory. */
  predicate TableOk(t: Table) {
    forall img | img in t :: t[img].count >= 0 && HasPrefix(t[img].path, MOUNT_PATH)
  }

  /** The outcomes of the file system calls made by one save. */
  datatype SaveFaults = SaveFaults(marshalFails: bool, badPermissions: bool, openFails: bool, writeFails: bool) {
    predicate Clean() {
      !marshalFails && !badPermissions && !openFails && !writeFails
    }
  }

  /** The file after a save of `t`: a failure before the open leaves it alone, a failure after it leaves it cut off. */
  function Saved(file: Content, t: Table, f: SaveFaults): Content {
    if f.marshalFails || f.badPermissions || f.openFails then file
    else if f.writeFails then Blank
    else Encoded(t)
  }

  /** The record behind one pointer of the map. */
  class ImageVMAssociation {
    var ImagePath: string
    var VMCount: int

    constructor (path: string, count: int)
      ensures ImagePath == path && VMCount == count
    {
      ImagePath, VMCount := path, count;
    }
  }

  /** The process-wide map of pointers together with the file that persists it. */
  class AssociationStore {
    var associations: map<string, ImageVMAssociation>
    var file: Content

    /** No two images share a record. */
    ghost predicate Valid()
      reads this
    {
      forall i, j | i in associations && j in associations && i != j :: associations[i] != associations[j]
    }

    ghost function View(): Table
      reads this, associations.Values
    {
      map img | img in associations :: Entry(associations[img].ImagePath, associations[img].VMCount)
    }

    /** Process start: an empty map over whatever file is on disk. */
    constructor (onDisk: Content)
      ensures Valid() && View() == map[] && file == onDisk
    {
      associations, file := map[], onDisk;
    }

    method SaveImageVMAssociation(f: SaveFaults) returns (ok: bool)
      requires Valid()
      modifies this`file
      ensures ok == f.Clean()
      ensures file == Saved(old(file), View(), f)
    {
      if f.marshalFails {
        return false;
      }
      var snapshot: Table :=
        map img | img in associations :: Entry(associations[img].ImagePath, associations[img].VMCount);
      if f.badPermissions || f.openFails {
        return false;
      }
      file := Blank;
      if f.writeFails {
        return false;
      }
      file := Encoded(snapshot);
      return true;
    }

    /** One new record for every entry of a decoded file. */
    static method NewRecords(table: Table) returns (loaded: map<string, ImageVMAssociation>)
      ensures loaded.Keys == table.Keys && fresh(loaded.Values)
      ensures forall i, j | i in loaded && j in loaded && i != j :: loaded[i] != loaded[j]
      ensures forall img | img in loaded ::
        loaded[img].ImagePath == table[img].path && loaded[img].VMCount == table[img].count
    {
      var todo := table.Keys;
      loaded := map[];
      while todo != {}
        invariant todo <= table.Keys && loaded.Keys == table.Keys - todo
        invariant forall img | img in loaded :: fresh(loaded[img])
        invariant forall i, j | i in loaded && j in loaded && i != j :: loaded[i] != loaded[j]
        invariant forall img | img in loaded ::
          loaded[img].ImagePath == table[img].path && loaded[img].VMCount == table[img].count
        decreases |todo|
      {
        var img :| img in todo;
        var record := new ImageVMAssociation(table[img].path, table[img].count);
        loaded := loaded[img := record];
        todo := todo - {img};
      }
    }

    /** Enters one new record for every entry of the table. */
    method Install(loaded: map<string, ImageVMAssociation>, ghost table: Table)
      requires Valid() && loaded.Keys == table.Keys
      requires forall i, j | i in loaded && j in loaded && i != j :: loaded[i] != loaded[j]
      requires forall i, j | i in associations && j in loaded :: associations[i] != loaded[j]
      requires forall img | img in loaded ::
        loaded[img].ImagePath == table[img].path && loaded[img].VMCount == table[img].count
      modifies this`associations
      ensures Valid() && View() == Merged(old(View()), table)
    {
      associations := associations + loaded;
    }

    /** Reads the file and merges it: every entry of the file gets a new record. */
    method LoadImageVMAssociation(readFails: bool) returns (ok: bool)
      requires Valid()
      modifies this`associations
      ensures Valid()
      ensures ok == !readFails
      ensures View() == if readFails then old(View()) else Merged(old(View()), Decode(file))
    {
      if readFails {
        return false;
      }
      var loaded := NewRecords(Decode(file));
      forall i, j | i in associations && j in loaded ensures associations[i] != loaded[j] {
        assert loaded[j] in loaded.Values;
      }
      Install(loaded, Decode(file));
      return true;
    }

    method Create(img: string, path: string, f: SaveFaults) returns (ok: bool)
      requires Valid()
      modifies this, associations.Values
      ensures Valid() && ok == f.Clean()
      ensures View() == Created(old(View()), img, path)
      ensures file == Saved(old(file), View(), f)
    {
      if img in associations {
        var attributes := associations[img];
        attributes.VMCount := attributes.VMCount + 1;
      } else {
        var record := new ImageVMAssociation(path, 1);
        associations := associations[img := record];
      }
      assert View() == Created(old(View()), img, path);
      ok := SaveImageVMAssociation(f);
    }

    /** `found` is false where the source returns its "does not exist" error, before any save. */
    method Delete(img: string, f: SaveFaults) returns (isLastVM: bool, imagePath: string, found: bool, ok: bool)
      requires Valid()
      modifies this, associations.Values
      ensures Valid()
      ensures View() == Deleted(old(View()), img)
      ensures found <==> old(Judge(View(), img)) != Missing
      ensures isLastVM <==> old(Judge(View(), img)) != Shared
      ensures imagePath == if found then old(PathOf(View(), img)) else ""
      ensures ok <==> found && f.Clean()
      ensures file == if found then Saved(old(file), View(), f) else old(file)
    {
      imagePath, isLastVM := "", false;
      if img in associations && associations[img].VMCount > 0 {
        var attributes := associations[img];
        attributes.VMCount := attributes.VMCount - 1;
        if attributes.VMCount == 0 {
          isLastVM := true;
        }
        imagePath := attributes.ImagePath;
        assert View() == Deleted(old(View()), img);
        ok := SaveImageVMAssociation(f);
        found := true;
      } else {
        return true, "", false, false;
      }
    }

    method ImagePathFromVMAssociationFile(img: string, readFails: bool) returns (path: string)
      requires Valid()
      modifies this`associations
      ensures Valid()
      ensures View() == if old(View()) == map[] && !readFails then Decode(file) else old(View())
      ensures path == PathOf(View(), img)
    {
      if |associations| == 0 {
        assert View() == map[];
        var loaded := LoadImageVMAssociation(readFails);
        if !loaded {
          return "";
        }
      } else {
        assert associations.Keys == View().Keys;
        assert View() != map[];
      }
      if img in associations {
        return associations[img].ImagePath;
      }
      return "";
    }
  }
}
