/** The table of open files: descriptors handed out lowest first, with a separate count
    that guards the search. */
module FileTable {

  const MAX_OPEN: nat := 10

  /** What the file system layer reports, and the code kept from it. */
  datatype FResult = FrOk | FrDenied | FrDiskErr | FrNoPath | FrNoFile | FrOther
  datatype Code = Ok | AccessDenied | IoError | NotFound | NotSet

  function CodeOf(r: FResult): Code {
    match r
    case FrOk => Ok
    case FrDenied => AccessDenied
    case FrDiskErr => IoError
    case FrNoPath => NotFound
    case FrNoFile => NotFound
    case FrOther => NotSet
  }

  const NULL: int := -1

  /** `entries[i]` is NULL or the number of the file object it points to. */
  datatype Table = Table(files: nat, entries: seq<int>, code: Code)

  /** Entries in use. */
  function Used(entries: seq<int>): nat {
    if entries == [] then 0 else Used(entries[..|entries| - 1]) + if entries[|entries| - 1] == NULL then 0 else 1
  }

  predicate Inv(t: Table) {
    && |t.entries| == MAX_OPEN && t.files == Used(t.entries)
    && forall i :: 0 <= i < MAX_OPEN ==> t.entries[i] == NULL || t.entries[i] == i
  }

  /** Index of the first NULL entry, or the length. */
  function LowestFree(entries: seq<int>): (i: nat)
    ensures i <= |entries| && (forall k :: 0 <= k < i ==> entries[k] != NULL) && (i < |entries| ==> entries[i] == NULL)
  {
    if entries == [] then 0 else if entries[0] == NULL then 0 else 1 + LowestFree(entries[1..])
  }

  lemma {:induction false} UsedAt(entries: seq<int>, i: nat, v: int)
    requires i < |entries|
    ensures Used(entries[i := v])
         == Used(entries) - (if entries[i] == NULL then 0 else 1) + (if v == NULL then 0 else 1)
    decreases |entries|
  {
    var n := |entries| - 1;
    if i < n {
      UsedAt(entries[..n], i, v);
      assert entries[i := v][..n] == entries[..n][i := v];
    } else {
      assert entries[i := v][..n] == entries[..n];
    }
  }

  /** The count is full exactly when no entry is free. */
  lemma {:induction false} UsedIsFull(entries: seq<int>)
    ensures Used(entries) <= |entries|
    ensures Used(entries) == |entries| <==> forall i :: 0 <= i < |entries| ==> entries[i] != NULL
    decreases |entries|
  {
    if entries == [] {
    } else {
      var n := |entries| - 1;
      UsedIsFull(entries[..n]);
      assert (forall i :: 0 <= i < n ==> entries[..n][i] != NULL) <==> (forall i :: 0 <= i < n ==> entries[i] != NULL);
    }
  }

  lemma {:induction false} UsedNone(n: nat)
    ensures Used(seq(n, _ => NULL)) == 0
    decreases n
  {
    if n == 0 {
    } else {
      UsedNone(n - 1);
      assert seq(n, _ => NULL)[..n - 1] == seq(n - 1, _ => NULL);
    }
  }

  // ---- the operations on values -----------------------------------------

  function Mount(t: Table, r: FResult): Table {
    if r == FrOk then Table(0, seq(MAX_OPEN, _ => NULL), Ok) else t.(code := CodeOf(r))
  }

  function Open(t: Table, r: FResult): Table
    requires |t.entries| == MAX_OPEN
  {
    var i := LowestFree(t.entries);
    if t.files == MAX_OPEN then t
    else if r != FrOk || i == MAX_OPEN then t.(code := CodeOf(r))
    else Table(t.files + 1, t.entries[i := i], Ok)
  }

  /** The descriptor an open returns. */
  function Opened(t: Table, r: FResult): int
    requires |t.entries| == MAX_OPEN
  {
    if t.files == MAX_OPEN || r != FrOk then -1 else LowestFree(t.entries)
  }

  function Close(t: Table, fd: int, r: FResult): Table
    requires |t.entries| == MAX_OPEN
  {
    if fd < 0 || fd >= MAX_OPEN || t.entries[fd] == NULL then t
    else Table(if t.files > 0 then t.files - 1 else 255, t.entries[fd := NULL], CodeOf(r))
  }

  /** A mount empties the table if it succeeds, and otherwise leaves every handle alone. */
  lemma MountKeeps(t: Table, r: FResult)
    requires Inv(t)
    ensures var t' := Mount(t, r);
      && Inv(t') && Told(t'.code, r)
      && (r == FrOk ==> t'.files == 0 && forall k :: 0 <= k < MAX_OPEN ==> t'.entries[k] == NULL)
      && (r != FrOk ==> t'.files == t.files && t'.entries == t.entries)
  {
    UsedNone(MAX_OPEN);
  }

  /** The code that reports a result, as a table. */
  predicate Told(code: Code, r: FResult) {
    (r, code) in {(FrOk, Ok), (FrDenied, AccessDenied), (FrDiskErr, IoError), (FrNoPath, NotFound),
                  (FrNoFile, NotFound), (FrOther, NotSet)}
  }

  /** An open yields a handle exactly when an entry is free and the file system agrees. The
      handle is the lowest free entry, inside the table and shared with none in use; no other
      entry changes, and an open without a handle changes none at all. */
  lemma OpenKeeps(t: Table, r: FResult)
    requires Inv(t)
    ensures Inv(Open(t, r))
    ensures t.files < MAX_OPEN ==> LowestFree(t.entries) < MAX_OPEN
    ensures Opened(t, r) >= 0 <==> (exists k :: 0 <= k < MAX_OPEN && t.entries[k] == NULL) && r == FrOk
    ensures var fd, t' := Opened(t, r), Open(t, r);
      if fd >= 0 then
        && fd < MAX_OPEN && t.entries[fd] == NULL && t'.entries[fd] == fd
        && (forall k :: 0 <= k < fd ==> t.entries[k] != NULL)
        && (forall k :: 0 <= k < MAX_OPEN && k != fd ==> t'.entries[k] == t.entries[k] != fd)
        && t'.files == t.files + 1 && t'.code == Ok
      else
        && fd == -1 && t'.entries == t.entries && t'.files == t.files
        && if t.files == MAX_OPEN then t'.code == t.code else Told(t'.code, r)
  {
    UsedIsFull(t.entries);
    var i := LowestFree(t.entries);
    if t.files < MAX_OPEN { UsedAt(t.entries, i, i); }
  }

  /** A close frees its entry and no other, and lowers the count, exactly when the handle is
      one in use; any other handle changes nothing. */
  lemma CloseKeeps(t: Table, fd: int, r: FResult)
    requires Inv(t)
    ensures Inv(Close(t, fd, r))
    ensures var t' := Close(t, fd, r);
      if 0 <= fd < MAX_OPEN && t.entries[fd] != NULL then
        && t'.entries[fd] == NULL
        && (forall k :: 0 <= k < MAX_OPEN && k != fd ==> t'.entries[k] == t.entries[k])
        && t'.files == t.files - 1 && Told(t'.code, r)
      else t' == t
  {
    if 0 <= fd < MAX_OPEN { UsedAt(t.entries, fd, NULL); }
    UsedIsFull(t.entries);
  }

  datatype Op = DoMount(r: FResult) | DoOpen(r: FResult) | DoClose(fd: int, r: FResult)

  function Do(t: Table, op: Op): Table
    requires |t.entries| == MAX_OPEN
  {
    match op
    case DoMount(r) => Mount(t, r)
    case DoOpen(r) => Open(t, r)
    case DoClose(fd, r) => Close(t, fd, r)
  }

  function Run(t: Table, ops: seq<Op>): Table
    requires |t.entries| == MAX_OPEN
    decreases |ops|
  {
    if ops == [] then t else Run(Do(t, ops[0]), ops[1..])
  }

  /** In every run the count is the number of entries in use and live handles are distinct
      file objects. */
  lemma {:induction false} RunKeeps(t: Table, ops: seq<Op>)
    requires Inv(t)
    ensures Inv(Run(t, ops))
    decreases |ops|
  {
    if ops == [] {
    } else {
      DoKeeps(t, ops[0]);
      RunKeeps(Do(t, ops[0]), ops[1..]);
    }
  }

  lemma DoKeeps(t: Table, op: Op)
    requires Inv(t)
    ensures Inv(Do(t, op))
  {
    match op
    case DoMount(r) => MountKeeps(t, r);
    case DoOpen(r) => OpenKeeps(t, r);
    case DoClose(fd, r) => CloseKeeps(t, fd, r);
  }

  /** The operations that end the life of a handle. */
  predicate Ends(op: Op, fd: int) { op == DoMount(FrOk) || (op.DoClose? && op.fd == fd) }

  /** A handle in use stays in use, as the same file object, through every run that neither
      closes it nor mounts anew, and no open on the way hands it out again. */
  lemma {:induction false} HandleLives(t: Table, fd: nat, ops: seq<Op>)
    requires Inv(t) && fd < MAX_OPEN && t.entries[fd] == fd && forall op :: op in ops ==> !Ends(op, fd)
    ensures Inv(Run(t, ops)) && Run(t, ops).entries[fd] == fd
    ensures forall r :: Opened(Run(t, ops), r) != fd
    decreases |ops|
  {
    if ops == [] {
      forall r ensures Opened(t, r) != fd { OpenKeeps(t, r); }
    } else {
      assert ops[0] in ops;
      DoKeeps(t, ops[0]);
      HandleStep(t, fd, ops[0]);
      HandleLives(Do(t, ops[0]), fd, ops[1..]);
    }
  }

  lemma HandleStep(t: Table, fd: nat, op: Op)
    requires Inv(t) && fd < MAX_OPEN && t.entries[fd] == fd && !Ends(op, fd)
    ensures Do(t, op).entries[fd] == fd
  {
    match op
    case DoMount(r) => MountKeeps(t, r);
    case DoOpen(r) => OpenKeeps(t, r);
    case DoClose(k, r) => CloseKeeps(t, k, r);
  }

  lemma {:induction false} LowestIs(entries: seq<int>, i: nat)
    requires i < |entries| && entries[i] == NULL && forall k :: 0 <= k < i ==> entries[k] != NULL
    ensures LowestFree(entries) == i
    decreases i
  {
    if i == 0 {
    } else {
      LowestIs(entries[1..], i - 1);
    }
  }

  // ---- the table in place -----------------------------------------------

  class Files {
    var files: nat
    var code: Code
    const openFiles: array<int>

    ghost function View(): Table reads this, openFiles { Table(files, openFiles[..], code) }

    constructor ()
      ensures Inv(View()) && fresh(openFiles)
    {
      files, code := 0, NotSet;
      openFiles := new int[MAX_OPEN](_ => NULL);
      new;
      UsedNone(MAX_OPEN);
      assert openFiles[..] == seq(MAX_OPEN, _ => NULL);
    }

    method MountDisk(r: FResult) returns (ok: bool)
      requires Inv(View())
      modifies this, openFiles
      ensures Inv(View()) && View() == Mount(old(View()), r) && ok == (r == FrOk)
    {
      code := CodeOf(r);
      if code == Ok {
        files := 0;
        var i := 0;
        while i < MAX_OPEN
          modifies openFiles
          invariant 0 <= i <= MAX_OPEN && forall k :: 0 <= k < i ==> openFiles[k] == NULL
        {
          openFiles[i] := NULL;
          i := i + 1;
        }
        assert openFiles[..] == seq(MAX_OPEN, _ => NULL);
        UsedNone(MAX_OPEN);
      }
      ok := code == Ok;
    }

    /** `fat_fopen`. The search reads the next entry before it tests the bound; the count
        keeps it inside the table. */
    method OpenFile(r: FResult) returns (fd: int)
      requires Inv(View())
      modifies this, openFiles
      ensures Inv(View()) && View() == Open(old(View()), r) && fd == Opened(old(View()), r)
    {
      UsedIsFull(openFiles[..]);
      OpenKeeps(View(), r);
      if files == MAX_OPEN {
        return -1;
      }
      ghost var free := LowestFree(openFiles[..]);
      var i, fp := 0, openFiles[0];
      while fp != NULL && i < MAX_OPEN
        invariant 0 <= i < MAX_OPEN && fp == openFiles[i]
        invariant i <= free < MAX_OPEN && openFiles[free] == NULL
        invariant forall k :: 0 <= k < i ==> openFiles[k] != NULL
        decreases MAX_OPEN - i
      {
        assert openFiles[free] == NULL && free != i;
        i := i + 1;
        fp := openFiles[i];
      }
      LowestIs(openFiles[..], i);
      code := CodeOf(r);
      if code != Ok {
        return -1;
      }
      files := files + 1;
      openFiles[i] := i;
      return i;
    }

    method CloseFile(fd: int, r: FResult)
      requires Inv(View())
      modifies this, openFiles
      ensures Inv(View()) && View() == Close(old(View()), fd, r)
    {
      CloseKeeps(View(), fd, r);
      if fd < 0 || fd >= MAX_OPEN {
        return;
      }
      if openFiles[fd] == NULL {
        return;
      }
      code := CodeOf(r);
      UsedAt(openFiles[..], fd, NULL);
      files := files - 1;
      openFiles[fd] := NULL;
    }
  }
}
