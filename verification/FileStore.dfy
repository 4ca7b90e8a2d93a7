/** The agent's file system, and the promotion of a finished temp file. */
module FileStore {
  import opened LittleEndian

  datatype Entry = File(data: seq<u8>) | Directory

  type Store = map<string, Entry>

  /** The longest path that leaves room for a suffix. */
  const PATH_MAX := 230

  datatype Status = Ok | AccessDenied | IoFailed | InvalidPayload | Busy | LimitExceeded | CrcMismatch | RenameFailed

  /** Which of the file operations of one promotion the system lets succeed. */
  datatype PromoteIo = PromoteIo(
    deleteBackup: bool, backUp: bool, install: bool, rollBack: bool, deleteTemp: bool, dropBackup: bool)

  predicate IsFile(s: Store, path: string) {
    path in s && s[path].File?
  }

  function Deleted(s: Store, path: string, works: bool): Store {
    if works && IsFile(s, path) then s - {path} else s
  }

  /** A move never replaces its target. */
  predicate CanMove(s: Store, from: string, to: string, works: bool) {
    works && from in s && to !in s
  }

  function Moved(s: Store, from: string, to: string, works: bool): Store {
    if CanMove(s, from, to, works) then (s - {from})[to := s[from]] else s
  }

  function BackupPath(path: string): string {
    path + ".V9X.BAK"
  }

  /** The store of the agent and every store it has been, for crash arguments. */
  class Disk {
    var store: Store
    ghost var trace: seq<Store>

    ghost predicate Valid()
      reads this
    {
      trace != [] && trace[|trace| - 1] == store
    }

    constructor (store: Store)
      ensures Valid() && this.store == store && trace == [store]
    {
      this.store := store;
      trace := [store];
    }

    method Delete(path: string, works: bool)
      requires Valid()
      modifies this
      ensures Valid() && store == Deleted(old(store), path, works) && trace == old(trace) + [store]
    {
      store := Deleted(store, path, works);
      trace := trace + [store];
    }

    method Move(from: string, to: string, works: bool) returns (ok: bool)
      requires Valid()
      modifies this
      ensures Valid() && store == Moved(old(store), from, to, works) && trace == old(trace) + [store]
      ensures ok <==> CanMove(old(store), from, to, works)
    {
      ok := CanMove(store, from, to, works);
      store := Moved(store, from, to, works);
      trace := trace + [store];
    }

    method Put(path: string, data: seq<u8>)
      requires Valid()
      modifies this
      ensures Valid() && store == old(store)[path := File(data)] && trace == old(trace) + [store]
    {
      store := store[path := File(data)];
      trace := trace + [store];
    }

    /** Move a finished temp file to its final path, keeping what was there until the new file is in place. */
    method PromoteTemp(final: string, temp: string, io: PromoteIo) returns (status: Status)
      requires Valid() && IsFile(store, temp) && temp != final && temp != BackupPath(final)
      modifies this
      ensures Valid() && old(trace) <= trace
      ensures status == if Promotes(old(store), final, io) then Ok else PromoteStatus(old(store), final, io)
      ensures store == Promoted(old(store), final, temp, io)
      ensures forall i :: |old(trace)| <= i < |trace| ==> Safe(old(store), trace[i], final, temp)
    {
      hide Safe, BackupPath;
      ghost var before := store;
      if final !in store {
        var ok := Move(temp, final, io.install);
        if !ok {
          Delete(temp, io.deleteTemp);
        }
        SafeNew(before, final, temp, io);
        return if ok then Ok else IoFailed;
      }
      if store[final].Directory? || |final| > PATH_MAX {
        Delete(temp, io.deleteTemp);
        SafeUntouched(before, final, temp, io.deleteTemp);
        return AccessDenied;
      }
      status := ReplaceFile(final, temp, io);
    }

    /** The same over an existing file: back it up, install the new one, or put it back. */
    method ReplaceFile(final: string, temp: string, io: PromoteIo) returns (status: Status)
      requires Valid() && IsFile(store, temp) && temp != final && temp != BackupPath(final)
      requires IsFile(store, final) && |final| <= PATH_MAX
      modifies this
      ensures Valid() && old(trace) <= trace
      ensures status == if Promotes(old(store), final, io) then Ok else PromoteStatus(old(store), final, io)
      ensures store == Promoted(old(store), final, temp, io)
      ensures forall i :: |old(trace)| <= i < |trace| ==> Safe(old(store), trace[i], final, temp)
    {
      hide Safe, BackupPath;
      ghost var before := store;
      BackupDiffers(final);
      Delete(BackupPath(final), io.deleteBackup);
      ghost var s1 := store;
      SafeBackup(before, s1, final, temp, io);
      var ok := Move(final, BackupPath(final), io.backUp);
      if !ok {
        Delete(temp, io.deleteTemp);
        return RenameFailed;
      }
      status := Install(before, s1, final, temp, io);
    }

    /** The old file is at the backup: install the new one, or roll back. */
    method Install(ghost before: Store, ghost s1: Store, final: string, temp: string, io: PromoteIo)
      returns (status: Status)
      requires Valid() && IsFile(before, temp) && IsFile(before, final) && |final| <= PATH_MAX
      requires temp != final && temp != BackupPath(final) && BackupPath(final) != final
      requires s1 == Deleted(before, BackupPath(final), io.deleteBackup)
      requires CanMove(s1, final, BackupPath(final), io.backUp)
      requires store == Moved(s1, final, BackupPath(final), io.backUp)
      modifies this
      ensures Valid() && old(trace) <= trace
      ensures status == if io.install then Ok else IoFailed
      ensures store == Promoted(before, final, temp, io)
      ensures forall i :: |old(trace)| <= i < |trace| ==> Safe(before, trace[i], final, temp)
    {
      hide Safe, BackupPath;
      SafeInstalled(before, store, final, temp, io);
      SafeRolledBack(before, store, final, temp, io);
      var ok := Move(temp, final, io.install);
      if !ok {
        var back := Move(BackupPath(final), final, io.rollBack);
        Delete(temp, io.deleteTemp);
        return IoFailed;
      }
      Delete(BackupPath(final), io.dropBackup);
      return Ok;
    }
  }

  lemma BackupDiffers(path: string)
    ensures BackupPath(path) != path
  {
    assert |BackupPath(path)| == |path| + 8;
  }

  /** The target's old contents are at the target or at the backup, or the new ones are at the target. */
  predicate Safe(before: Store, now: Store, final: string, temp: string)
    requires IsFile(before, temp)
  {
    && (IsFile(before, final) ==>
          || (final in now && now[final] == before[final])
          || (BackupPath(final) in now && now[BackupPath(final)] == before[final])
          || (final in now && now[final] == before[temp]))
    && (forall p :: p in before && p !in {final, temp, BackupPath(final)} ==> p in now && now[p] == before[p])
    && (forall p :: p in now && p !in before ==> p in {final, BackupPath(final)})
  }

  /** Nothing is in the way of a backup, or it can be removed. */
  predicate BackupClears(s: Store, final: string, io: PromoteIo) {
    BackupPath(final) !in s || (io.deleteBackup && IsFile(s, BackupPath(final)))
  }

  predicate Promotes(s: Store, final: string, io: PromoteIo) {
    && io.install
    && (final in s ==> s[final].File? && |final| <= PATH_MAX && BackupClears(s, final, io) && io.backUp)
  }

  /** Why a promotion failed. */
  function PromoteStatus(s: Store, final: string, io: PromoteIo): (status: Status)
    ensures status != Ok
  {
    if final !in s then IoFailed
    else if s[final].Directory? || |final| > PATH_MAX then AccessDenied
    else if !(io.backUp && BackupClears(s, final, io)) then RenameFailed
    else IoFailed
  }

  /** The store after a promotion. */
  function Promoted(s: Store, final: string, temp: string, io: PromoteIo): Store
    requires IsFile(s, temp)
  {
    if final !in s then Deleted(Moved(s, temp, final, io.install), temp, io.deleteTemp)
    else if s[final].Directory? || |final| > PATH_MAX then Deleted(s, temp, io.deleteTemp)
    else
      var s1 := Deleted(s, BackupPath(final), io.deleteBackup);
      if !CanMove(s1, final, BackupPath(final), io.backUp) then Deleted(s1, temp, io.deleteTemp)
      else
        var s2 := Moved(s1, final, BackupPath(final), io.backUp);
        if CanMove(s2, temp, final, io.install) then
          Deleted(Moved(s2, temp, final, io.install), BackupPath(final), io.dropBackup)
        else Deleted(Moved(s2, BackupPath(final), final, io.rollBack), temp, io.deleteTemp)
  }

  lemma SafeUntouched(s: Store, final: string, temp: string, works: bool)
    requires IsFile(s, temp) && temp != final
    ensures Safe(s, s, final, temp) && Safe(s, Deleted(s, temp, works), final, temp)
  {
  }

  lemma SafeNew(s: Store, final: string, temp: string, io: PromoteIo)
    requires IsFile(s, temp) && temp != final && final !in s
    ensures var t := Moved(s, temp, final, io.install);
            Safe(s, t, final, temp) && Safe(s, Deleted(t, temp, io.deleteTemp), final, temp)
  {
  }

  /** Up to and including the backup. */
  lemma SafeBackup(s: Store, s1: Store, final: string, temp: string, io: PromoteIo)
    requires IsFile(s, temp) && temp != final && temp != BackupPath(final) && IsFile(s, final)
    requires BackupPath(final) != final && s1 == Deleted(s, BackupPath(final), io.deleteBackup)
    ensures Safe(s, s1, final, temp) && Safe(s, Moved(s1, final, BackupPath(final), io.backUp), final, temp)
    ensures !CanMove(s1, final, BackupPath(final), io.backUp) ==>
              Safe(s, Deleted(s1, temp, io.deleteTemp), final, temp)
    ensures CanMove(s1, final, BackupPath(final), io.backUp) <==> io.backUp && BackupClears(s, final, io)
  {
    hide BackupPath;
  }

  /** From the backup on: the new file goes in. */
  lemma SafeInstalled(s: Store, s2: Store, final: string, temp: string, io: PromoteIo)
    requires IsFile(s, temp) && IsFile(s, final)
    requires temp != final && temp != BackupPath(final) && BackupPath(final) != final
    requires s2 == Moved(Deleted(s, BackupPath(final), io.deleteBackup), final, BackupPath(final), io.backUp)
    requires CanMove(Deleted(s, BackupPath(final), io.deleteBackup), final, BackupPath(final), io.backUp)
    ensures CanMove(s2, temp, final, io.install) <==> io.install
    ensures var t := Moved(s2, temp, final, io.install);
            Safe(s, t, final, temp) && (io.install ==> Safe(s, Deleted(t, BackupPath(final), io.dropBackup), final, temp))
  {
    hide BackupPath;
  }

  /** Or the old one comes back. */
  lemma SafeRolledBack(s: Store, s2: Store, final: string, temp: string, io: PromoteIo)
    requires IsFile(s, temp) && IsFile(s, final)
    requires temp != final && temp != BackupPath(final) && BackupPath(final) != final
    requires s2 == Moved(Deleted(s, BackupPath(final), io.deleteBackup), final, BackupPath(final), io.backUp)
    requires CanMove(Deleted(s, BackupPath(final), io.deleteBackup), final, BackupPath(final), io.backUp)
    ensures var r := Moved(s2, BackupPath(final), final, io.rollBack);
            Safe(s, r, final, temp) && Safe(s, Deleted(r, temp, io.deleteTemp), final, temp)
  {
    hide BackupPath;
  }

  /** What a caller finds after a promotion, successful or not. */
  lemma PromotedOutcome(s: Store, final: string, temp: string, io: PromoteIo)
    requires IsFile(s, temp) && temp != final && temp != BackupPath(final)
    ensures var t := Promoted(s, final, temp, io);
            if Promotes(s, final, io) then
              && final in t && t[final] == s[temp]
              && (final in s && io.dropBackup ==> BackupPath(final) !in t)
            else
              && (final in s && (io.rollBack || !io.backUp || !BackupClears(s, final, io) || |final| > PATH_MAX) ==>
                    final in t && t[final] == s[final])
              && (final !in s ==> final !in t)
  {
    BackupDiffers(final);
  }

  /** The temp file stays behind exactly when the promotion fails and so does deleting it. */
  lemma TempLeftBehind(s: Store, final: string, temp: string, io: PromoteIo)
    requires IsFile(s, temp) && temp != final && temp != BackupPath(final)
    ensures temp in Promoted(s, final, temp, io) <==> !Promotes(s, final, io) && !io.deleteTemp
  {
    BackupDiffers(final);
  }

  /** So it is not always consumed: here the rename fails and the deletion fails as well. */
  lemma TempNotConsumed()
    ensures var io := PromoteIo(true, true, false, true, false, true);
            Promoted(map["T" := File([7])], "F", "T", io) == map["T" := File([7])]
  {
  }
}
