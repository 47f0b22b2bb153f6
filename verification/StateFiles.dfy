/**
 * Persisted state with several candidate paths: read from the first path that holds a
 * valid record, write to the first path that can be written. Used by the boot marker and
 * by the disconnect history.
 */
module StateFiles {
  import opened Sequences

  /** What a reader finds. None stands for a missing, unreadable or invalid file. */
  function FirstRecord<T>(files: seq<Option<T>>): Option<T> {
    if files == [] then None
    else if files[0].Some? then files[0]
    else FirstRecord(files[1..])
  }

  /** The files after a write of x; unchanged when nothing is writable. */
  function Stored<T>(files: seq<Option<T>>, writable: seq<bool>, x: T): (r: seq<Option<T>>)
    requires |writable| == |files|
    ensures |r| == |files|
  {
    if files == [] then []
    else if writable[0] then [Some(x)] + files[1..]
    else [files[0]] + Stored(files[1..], writable[1..], x)
  }

  /** The first writable path comes no later than the first path that holds a record. */
  ghost predicate Lands<T>(files: seq<Option<T>>, writable: seq<bool>)
    requires |writable| == |files|
  {
    exists i :: 0 <= i < |files| && writable[i] && forall j :: 0 <= j < i ==> files[j].None?
  }

  /**
   * A reader finds the new record exactly when the write lands. Otherwise it finds what it
   * found before: a read-only path that still holds an old record hides the new one.
   */
  lemma {:induction false} ReadBack<T>(files: seq<Option<T>>, writable: seq<bool>, x: T)
    requires |writable| == |files|
    ensures FirstRecord(Stored(files, writable, x)) ==
            if Lands(files, writable) then Some(x) else FirstRecord(files)
  {
    if files != [] {
      var rest := Stored(files[1..], writable[1..], x);
      if writable[0] {
        assert Lands(files, writable);
      } else {
        assert ([files[0]] + rest)[1..] == rest;
        ReadBack(files[1..], writable[1..], x);
        if files[0].None? {
          if Lands(files[1..], writable[1..]) {
            var i :| 0 <= i < |files[1..]| && writable[1..][i] &&
                     forall j :: 0 <= j < i ==> files[1..][j].None?;
            assert writable[i + 1];
            assert forall j :: 0 < j < i + 1 ==> files[j] == files[1..][j - 1];
          }
          if Lands(files, writable) {
            var i :| 0 <= i < |files| && writable[i] && forall j :: 0 <= j < i ==> files[j].None?;
            assert writable[1..][i - 1];
          }
        }
      }
    }
  }

  class StateFile<T(==)> {
    var files: seq<Option<T>>

    method Read() returns (r: Option<T>)
      ensures r == FirstRecord(files)
      ensures r == None <==> forall i :: 0 <= i < |files| ==> files[i] == None
      ensures r != None ==>
                exists i :: 0 <= i < |files| && files[i] == r && forall j :: 0 <= j < i ==> files[j] == None
    {
      for i := 0 to |files|
        invariant FirstRecord(files) == FirstRecord(files[i..])
        invariant forall j :: 0 <= j < i ==> files[j] == None
      {
        if files[i].Some? {
          return files[i];
        }
        assert files[i..][1..] == files[i + 1..];
      }
      return None;
    }

    method Write(x: T, writable: seq<bool>) returns (ok: bool)
      requires |writable| == |files|
      modifies this
      ensures files == Stored(old(files), writable, x)
      ensures ok <==> true in writable
      ensures !ok ==> files == old(files)
      ensures ok ==>
                exists i :: 0 <= i < |writable| && writable[i] && files == old(files)[i := Some(x)] &&
                            forall j :: 0 <= j < i ==> !writable[j]
    {
      hide Stored;
      for i := 0 to |files|
        invariant files == old(files)
        invariant forall j :: 0 <= j < i ==> !writable[j]
      {
        if writable[i] {
          StoredAt(files, writable, x, i);
          files := files[i := Some(x)];
          return true;
        }
      }
      StoredNowhere(files, writable, x);
      return false;
    }
  }

  lemma {:induction false} StoredAt<T>(files: seq<Option<T>>, writable: seq<bool>, x: T, i: nat)
    requires |writable| == |files| && i < |files| && writable[i]
    requires forall j :: 0 <= j < i ==> !writable[j]
    ensures Stored(files, writable, x) == files[i := Some(x)]
  {
    if i > 0 {
      StoredAt(files[1..], writable[1..], x, i - 1);
    }
  }

  lemma {:induction false} StoredNowhere<T>(files: seq<Option<T>>, writable: seq<bool>, x: T)
    requires |writable| == |files|
    requires forall j :: 0 <= j < |files| ==> !writable[j]
    ensures Stored(files, writable, x) == files
  {
    if files != [] {
      StoredNowhere(files[1..], writable[1..], x);
    }
  }
}
