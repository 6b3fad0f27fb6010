/**
 * The profile store: the records of profiles.bin, the two counters of
 * data.bin and the per-profile files, with name validation, loading and
 * creation of profiles.
 */
module Profiles {
  import opened Wrappers
  import opened Text

  const MaxProfiles := 5
  const MaxProfileNameLength := 20
  /** sizeof(Profile): a char, one byte of padding, 21 wchar_t and two chars. */
  const ProfileSize := 46

  /** A signed char, as the profile and counter fields are. */
  newtype int8 = x: int | -128 <= x < 128

  /** The char a value is stored as: its residue modulo 256 in [-128, 128). */
  function Wrap8(x: int): (r: int8)
    ensures -128 <= x < 128 ==> r as int == x
    ensures (x - r as int) % 256 == 0
  {
    ((x + 128) % 256 - 128) as int8
  }

  /** `c++` on a char: 127 wraps to -128. */
  function Inc8(c: int8): (r: int8)
    ensures c < 127 ==> r as int == c as int + 1
    ensures c == 127 ==> r == -128
  {
    Wrap8(c as int + 1)
  }

  /** `c--` on a char: -128 wraps to 127. */
  function Dec8(c: int8): (r: int8)
    ensures c > -128 ==> r as int == c as int - 1
    ensures c == -128 ==> r == 127
  {
    Wrap8(c as int - 1)
  }

  lemma {:induction false} IncDecInverse(c: int8)
    ensures Dec8(Inc8(c)) == c && Inc8(Dec8(c)) == c
  {
  }

  /** A name fits profile_name: at most 20 characters and a terminating NUL. */
  predicate FitsName(name: string) {
    |name| <= MaxProfileNameLength && '\0' !in name
  }

  /** One record of profiles.bin. */
  datatype Profile = Profile(id: int8, name: string, langID: int8, lessonID: int8)

  /** The contents of data.bin. */
  datatype Counters = Counters(profileCounter: int8, numProfiles: int8)

  /** Everything the profile operations read and write on disk. */
  datatype Store = Store(profiles: seq<Profile>, data: Counters, profileFiles: set<string>)

  /*** AppData: ReadData and WriteData on data.bin ***/

  /** Whether ReadData opens and reads data.bin. */
  datatype DataRead = ReadOk | ReadFails

  /**
   * What WriteData does to data.bin: writes the counters, fails to open the
   * file (it keeps its counters), or truncates it and then fails to write
   * (the empty file reads back as two zero counters).
   */
  datatype DataWrite = WriteOk | WriteOpenFails | WriteFailsAfterTruncate

  /** How the ReadData and the WriteData of one operation turn out. */
  datatype DataAccess = DataAccess(read: DataRead, write: DataWrite)

  const DataOk := DataAccess(ReadOk, WriteOk)

  /**
   * The struct after ReadData(&data): the file's counters when the read
   * succeeds (a short file leaves zeros, which the model does not separate
   * from its counters), otherwise what the struct held before the call.
   */
  function ReadInto(file: Counters, read: DataRead, held: Counters): (r: Counters)
    ensures read == ReadOk ==> r == file
    ensures read == ReadFails ==> r == held
  {
    if read == ReadOk then file else held
  }

  /** data.bin after WriteData(data); the caller ignores the result. */
  function WriteData(file: Counters, data: Counters, write: DataWrite): (r: Counters)
    ensures write == WriteOk ==> r == data
    ensures write == WriteOpenFails ==> r == file
    ensures write == WriteFailsAfterTruncate ==> r == Counters(0, 0)
  {
    match write
    case WriteOk => data
    case WriteOpenFails => file
    case WriteFailsAfterTruncate => Counters(0, 0)
  }

  /** What a successful WriteData stores, a successful ReadData gives back. */
  lemma {:induction false} ReadAfterWrite(file: Counters, data: Counters, held: Counters)
    ensures ReadInto(WriteData(file, data, WriteOk), ReadOk, held) == data
  {
  }

  function Names(ps: seq<Profile>): (r: seq<string>)
    ensures |r| == |ps| && forall i :: 0 <= i < |ps| ==> r[i] == ps[i].name
  {
    seq(|ps|, i requires 0 <= i < |ps| => ps[i].name)
  }

  /*** LoadProfiles ***/

  /** What goes wrong while reading profiles.bin. */
  datatype LoadFault = NoLoadFault | OpenFails | ReadFailsAt(index: nat)

  /** Whether every step of reading `n` records succeeds. */
  predicate LoadSucceeds(fault: LoadFault, n: nat) {
    match fault
    case NoLoadFault => true
    case OpenFails => false
    case ReadFailsAt(i) => i >= n
  }

  /** The vector a caller starts with empty holds afterwards: the records, or nothing when loading fails. */
  function Loaded(profiles: seq<Profile>, fault: LoadFault): (r: seq<Profile>)
    ensures r == profiles || r == []
    ensures LoadSucceeds(fault, |profiles|) ==> r == profiles
  {
    if LoadSucceeds(fault, |profiles|) then profiles else []
  }

  /*** Profile names ***/

  /** The character class [a-zA-Z0-9]. */
  predicate IsAlnum(c: char) {
    'a' <= c <= 'z' || 'A' <= c <= 'Z' || '0' <= c <= '9'
  }

  /**
   * regex_match against "([a-zA-Z0-9])+", read as its grammar: the group
   * matches one class character, and `+` either stops there, at the end of
   * the name, or matches the group again on the rest.
   */
  function MatchesAlnum(name: string): (r: bool)
    decreases |name|
  {
    |name| > 0 && IsAlnum(name[0]) && (|name| == 1 || MatchesAlnum(name[1..]))
  }

  /** A whole-name match of ([a-zA-Z0-9])+ is exactly a non-empty name of letters and digits. */
  lemma {:induction false} MatchesAlnumIff(name: string)
    ensures MatchesAlnum(name) <==> |name| > 0 && forall i :: 0 <= i < |name| ==> IsAlnum(name[i])
    decreases |name|
  {
    if |name| > 1 {
      MatchesAlnumIff(name[1..]);
      if forall i :: 0 <= i < |name| ==> IsAlnum(name[i]) {
        assert forall i :: 0 <= i < |name[1..]| ==> IsAlnum(name[1..][i]) by {
          forall i | 0 <= i < |name[1..]| ensures IsAlnum(name[1..][i]) {
            assert name[1..][i] == name[i + 1];
          }
        }
      }
      if MatchesAlnum(name) {
        forall i | 0 <= i < |name| ensures IsAlnum(name[i]) {
          if i > 0 { assert name[i] == name[1..][i - 1]; }
        }
      }
    }
  }

  /** The names CheckName accepts: non-empty, letters and digits only, and not an existing profile's. */
  predicate NameAccepted(name: string, existing: seq<string>) {
    name != [] && MatchesAlnum(name) && name !in existing
  }

  /** A vector of profiles a caller passes by pointer. */
  class ProfileList {
    var items: seq<Profile>

    constructor ()
      ensures items == []
    {
      items := [];
    }
  }

  /*** CreateNewProfile ***/

  /** The step of CreateNewProfile after ReadData that fails, up to creating the profile file. */
  datatype CreateFault = OpenProfilesFails | SeekEndFails | WriteRecordFails | CreateFileFails

  /** "profile_" + to_wstring(static_cast<int>(id)) + ".bin". */
  function ProfileFileName(id: int8): (r: string)
    ensures |r| >= 13 && r[..8] == "profile_" && r[|r| - 4..] == ".bin"
  {
    "profile_" + SignedDecimal(id as int) + ".bin"
  }

  /** std::to_wstring of a signed int. */
  function SignedDecimal(i: int): (r: string)
    ensures |r| >= 1
    ensures i >= 0 ==> r == Decimal(i)
    ensures i < 0 ==> r == "-" + Decimal(-i)
  {
    if i < 0 then "-" + Decimal(-i) else Decimal(i)
  }

  /** Only a negative value prints a leading '-'. */
  lemma {:induction false} SignedDecimalSign(i: int)
    ensures SignedDecimal(i)[0] == '-' <==> i < 0
  {
    if i >= 0 {
      assert '0' <= Decimal(i)[0] <= '9';
    }
  }

  lemma {:induction false} SignedDecimalInjective(i: int, j: int)
    requires SignedDecimal(i) == SignedDecimal(j)
    ensures i == j
  {
    SignedDecimalSign(i);
    SignedDecimalSign(j);
    var r := SignedDecimal(i);
    if i < 0 {
      assert Decimal(-i) == r[1..] == Decimal(-j);
      DecimalInjective(-i, -j);
    } else {
      DecimalInjective(i, j);
    }
  }

  /** Distinct profile IDs get distinct profile files. */
  lemma {:induction false} ProfileFileNameInjective(a: int8, b: int8)
    requires ProfileFileName(a) == ProfileFileName(b)
    ensures a == b
  {
    var da := SignedDecimal(a as int);
    var db := SignedDecimal(b as int);
    assert ProfileFileName(a)[8..|ProfileFileName(a)| - 4] == da;
    assert ProfileFileName(b)[8..|ProfileFileName(b)| - 4] == db;
    SignedDecimalInjective(a as int, b as int);
  }

  /** What CreateNewProfile returns, and the store it leaves. */
  datatype Created = Created(ok: bool, store: Store)

  /**
   * CreateNewProfile: works from the counters ReadData leaves in an
   * uninitialised struct (`held` stands for its contents when the read
   * fails); refused at the limit; otherwise each step that succeeds leaves
   * its mark: the record is appended, then the profile file created, then
   * the counters written back.
   */
  function Create(s: Store, name: string, fault: Option<CreateFault>, io: DataAccess, held: Counters): (r: Created)
    ensures r.store.profiles == s.profiles
         || r.store.profiles == s.profiles + [NewRecord(ReadInto(s.data, io.read, held), name)]
    ensures !r.ok ==> r.store.data == s.data && r.store.profileFiles == s.profileFiles
  {
    var cur := ReadInto(s.data, io.read, held);
    if cur.numProfiles as int == MaxProfiles then Created(false, s)
    else
      var data := Counters(Inc8(cur.profileCounter), Inc8(cur.numProfiles));
      var profiles := s.profiles + [NewRecord(cur, name)];
      var files := s.profileFiles + {ProfileFileName(data.profileCounter)};
      match fault
      case Some(OpenProfilesFails) => Created(false, s)
      case Some(SeekEndFails) => Created(false, s)
      case Some(WriteRecordFails) => Created(false, s)
      case Some(CreateFileFails) => Created(false, s.(profiles := profiles))
      case None => Created(true, Store(profiles, WriteData(s.data, data, io.write), files))
  }

  /** The record CreateNewProfile appends: the next profile ID, the name, and 0 for language and lesson. */
  function NewRecord(data: Counters, name: string): (p: Profile)
    ensures p.id == Inc8(data.profileCounter) && p.name == name && p.langID == 0 && p.lessonID == 0
  {
    Profile(Inc8(data.profileCounter), name, 0, 0)
  }

  /** When the counters as read are at the limit nothing is written and false is returned. */
  lemma {:induction false} CreateRefusedAtLimit(s: Store, name: string, fault: Option<CreateFault>, io: DataAccess,
                                                held: Counters)
    requires ReadInto(s.data, io.read, held).numProfiles as int == MaxProfiles
    ensures Create(s, name, fault, io, held) == Created(false, s)
  {
  }

  /** A creation whose every step succeeds appends the record and raises both counters by one. */
  lemma {:induction false} CreateSucceeds(s: Store, name: string, held: Counters)
    requires s.data.numProfiles as int != MaxProfiles
    ensures var r := Create(s, name, None, DataOk, held);
      && r.ok
      && r.store.profiles == s.profiles + [Profile(r.store.data.profileCounter, name, 0, 0)]
      && r.store.data == Counters(Inc8(s.data.profileCounter), Inc8(s.data.numProfiles))
      && r.store.profileFiles == s.profileFiles + {ProfileFileName(r.store.data.profileCounter)}
  {
  }

  /** With data.bin read and written, the counters change exactly when the limit is not reached and every step succeeds. */
  lemma {:induction false} CountersWrittenOnlyOnSuccess(s: Store, name: string, fault: Option<CreateFault>, held: Counters)
    ensures Create(s, name, fault, DataOk, held).store.data != s.data
        <==> s.data.numProfiles as int != MaxProfiles && fault.None?
  {
  }

  /**
   * When ReadData fails, the limit test, the new profile ID and the counters
   * written back all come from whatever the uninitialised struct held, not
   * from data.bin.
   */
  lemma {:induction false} CreateReadFailureUsesHeld(s: Store, name: string, held: Counters)
    requires held.numProfiles as int != MaxProfiles
    ensures var r := Create(s, name, None, DataAccess(ReadFails, WriteOk), held);
      && r.ok
      && r.store.profiles == s.profiles + [Profile(Inc8(held.profileCounter), name, 0, 0)]
      && r.store.data == Counters(Inc8(held.profileCounter), Inc8(held.numProfiles))
  {
  }

  /** A failure to create the profile file leaves an extra record that the counters do not count. */
  lemma {:induction false} CreateFileFailureDiverges(s: Store, name: string, io: DataAccess, held: Counters)
    requires ReadInto(s.data, io.read, held).numProfiles as int != MaxProfiles
    ensures var r := Create(s, name, Some(CreateFileFails), io, held);
      && !r.ok && |r.store.profiles| == |s.profiles| + 1 && r.store.data == s.data
  {
  }

  /**
   * A failed WriteData still reports success, with the record appended and
   * data.bin either unchanged or emptied to zero counters.
   */
  lemma {:induction false} CreateWriteFailureDiverges(s: Store, name: string, write: DataWrite, held: Counters)
    requires s.data.numProfiles as int != MaxProfiles && write != WriteOk
    ensures var r := Create(s, name, None, DataAccess(ReadOk, write), held);
      && r.ok && |r.store.profiles| == |s.profiles| + 1
      && r.store.data == if write == WriteOpenFails then s.data else Counters(0, 0)
  {
  }

  /** A store whose counters agree with profiles.bin and whose names are distinct. */
  predicate Consistent(s: Store) {
    && 0 <= s.data.numProfiles as int <= MaxProfiles
    && |s.profiles| == s.data.numProfiles as int
    && forall i, j :: 0 <= i < j < |s.profiles| ==> s.profiles[i].name != s.profiles[j].name
  }

  /** Creating an accepted name with no failure keeps the store consistent. */
  lemma {:induction false} CreateKeepsConsistent(s: Store, name: string, held: Counters)
    requires Consistent(s) && NameAccepted(name, Names(s.profiles))
    ensures Consistent(Create(s, name, None, DataOk, held).store)
  {
    if s.data.numProfiles as int != MaxProfiles {
      var ps := Create(s, name, None, DataOk, held).store.profiles;
      assert ps == s.profiles + [NewRecord(s.data, name)];
      forall i, j | 0 <= i < j < |ps|
        ensures ps[i].name != ps[j].name
      {
        if j == |s.profiles| {
          assert Names(s.profiles)[i] == s.profiles[i].name;
        }
      }
    }
  }

  /** profiles.bin, data.bin and the per-profile files, updated in place. */
  class ProfileStore {
    var profiles: seq<Profile>
    var data: Counters
    var profileFiles: set<string>

    constructor (profiles: seq<Profile>, data: Counters, profileFiles: set<string>)
      ensures this.profiles == profiles && this.data == data && this.profileFiles == profileFiles
    {
      this.profiles := profiles;
      this.data := data;
      this.profileFiles := profileFiles;
    }

    function State(): Store
      reads this
    {
      Store(profiles, data, profileFiles)
    }

    /**
     * LoadProfiles: reads fileSize / sizeof(Profile) records in file order
     * into `vec`. False, with `vec` untouched, for a null pointer or a
     * failed open or read.
     */
    method LoadProfiles(vec: ProfileList?, fault: LoadFault) returns (ok: bool)
      modifies vec
      ensures ok <==> vec != null && LoadSucceeds(fault, |profiles|)
      ensures vec != null ==> vec.items == if ok then profiles else old(vec.items)
    {
      if vec == null {
        return false;
      }
      if fault == OpenFails {
        return false;
      }
      var blocks: seq<Profile> := [];
      var fileSize := ProfileSize * |profiles|;
      var i := 0;
      while i < fileSize / ProfileSize
        invariant i <= |profiles| == fileSize / ProfileSize
        invariant blocks == profiles[..i]
        invariant !LoadSucceeds(fault, |profiles|) ==> fault.ReadFailsAt? && i <= fault.index
      {
        if fault == ReadFailsAt(i) {
          return false;
        }
        blocks := blocks + [profiles[i]];
        i := i + 1;
      }
      assert profiles[..i] == profiles;
      vec.items := blocks;
      return true;
    }

    /**
     * CheckName: rejects the empty name, a name with anything but ASCII
     * letters and digits, and the name of a loaded profile. When loading
     * fails the list of existing names is empty.
     */
    method CheckName(name: string, fault: LoadFault) returns (ok: bool)
      ensures name == [] ==> !ok
      ensures (exists i :: 0 <= i < |name| && !IsAlnum(name[i])) ==> !ok
      ensures ok <==> NameAccepted(name, Names(Loaded(profiles, fault)))
    {
      if name == [] {
        return false;
      }
      MatchesAlnumIff(name);
      if !MatchesAlnum(name) {
        return false;
      }
      var proVec := new ProfileList();
      var _ := LoadProfiles(proVec, fault);
      var existing := proVec.items;
      assert existing == Loaded(profiles, fault);
      for i := 0 to |existing|
        invariant name !in Names(existing)[..i]
      {
        if name == existing[i].name {
          assert Names(existing)[i] == name;
          return false;
        }
        assert Names(existing)[..i + 1] == Names(existing)[..i] + [existing[i].name];
      }
      assert Names(existing)[..|existing|] == Names(existing);
      return true;
    }

    /**
     * CreateNewProfile: reads the counters into an uninitialised struct,
     * refuses at MaxProfiles; otherwise appends the record for the next
     * profile ID, creates its profile file and writes the raised counters
     * back, stopping at the first step that fails before the write.
     */
    method CreateNewProfile(name: string, fault: Option<CreateFault>, io: DataAccess, held: Counters) returns (ok: bool)
      requires FitsName(name)
      modifies this
      ensures Created(ok, State()) == Create(old(State()), name, fault, io, held)
    {
      var d := held;
      if io.read == ReadOk {
        d := data;
      }
      if d.numProfiles as int == MaxProfiles {
        return false;
      }
      d := d.(numProfiles := Inc8(d.numProfiles));
      d := d.(profileCounter := Inc8(d.profileCounter));
      var newProfile := Profile(d.profileCounter, name, 0, 0);
      if fault == Some(OpenProfilesFails) || fault == Some(SeekEndFails) || fault == Some(WriteRecordFails) {
        return false;
      }
      profiles := profiles + [newProfile];
      if fault == Some(CreateFileFails) {
        return false;
      }
      profileFiles := profileFiles + {ProfileFileName(d.profileCounter)};
      if io.write == WriteOk {
        data := d;
      } else if io.write == WriteFailsAfterTruncate {
        data := Counters(0, 0);
      }
      return true;
    }
  }
}
