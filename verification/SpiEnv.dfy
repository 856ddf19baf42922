// common/env_spi.c: the environment's place in flash.

module SpiEnv {
  import opened Nor
  import Raspi

  const CFG_BOOTENV_OFFSET: int := 0x30000
  const CFG_ENV_SECT_SIZE: int := 0x10000
  const CFG_ENV_SIZE: int := 0x1000
  const ENV_HEADER_SIZE: int := 4
  const ENV_SIZE: int := CFG_ENV_SIZE - ENV_HEADER_SIZE

  // struct environment_s
  datatype Env = Env(crc: seq<bv8>, data: seq<bv8>)

  predicate IsEnv(e: Env) {
    |e.crc| == ENV_HEADER_SIZE && |e.data| == ENV_SIZE
  }

  function Bytes(e: Env): seq<bv8> {
    e.crc + e.data
  }

  function AsEnv(bytes: seq<bv8>): (e: Env)
    requires |bytes| == CFG_ENV_SIZE
    ensures IsEnv(e)
  {
    Env(bytes[..ENV_HEADER_SIZE], bytes[ENV_HEADER_SIZE..])
  }

  lemma AsEnvBytes(e: Env)
    requires IsEnv(e)
    ensures |Bytes(e)| == CFG_ENV_SIZE && AsEnv(Bytes(e)) == e
  {
    assert Bytes(e)[..ENV_HEADER_SIZE] == e.crc && Bytes(e)[ENV_HEADER_SIZE..] == e.data;
  }

  function Stored(m: seq<bv8>): (e: Env)
    requires |m| >= CFG_BOOTENV_OFFSET + CFG_ENV_SIZE
    ensures IsEnv(e)
  {
    AsEnv(m[CFG_BOOTENV_OFFSET..CFG_BOOTENV_OFFSET + CFG_ENV_SIZE])
  }

  // The checksum comes first, and the data right behind it.
  lemma StoredIs(m: seq<bv8>, e: Env)
    requires |m| >= CFG_BOOTENV_OFFSET + CFG_ENV_SIZE && Stored(m) == e
    ensures m[0x30000..0x30004] == e.crc && m[0x30004..0x31000] == e.data
  {
    var s := m[CFG_BOOTENV_OFFSET..CFG_BOOTENV_OFFSET + CFG_ENV_SIZE];
    assert s[..4] == m[CFG_BOOTENV_OFFSET..CFG_BOOTENV_OFFSET + 4];
    assert s[4..] == m[CFG_BOOTENV_OFFSET + 4..CFG_BOOTENV_OFFSET + CFG_ENV_SIZE];
  }

  // Where the wait in front of the first piece stands among those of saveenv.
  const FIRST_PIECE: nat := 5

  // saveenv looks at the waits in front of the read, of the erasure and of its
  // one sector, and of the write as a whole.
  predicate ReportsSaved(chip: Chip, p: nat) {
    chip.schedule(p) == Ready && chip.schedule(p + 1) == Ready && chip.schedule(p + 2) == Ready
      && chip.schedule(p + 4) == Ready
  }

  // The environment's sector with the environment replaced.
  function NewSector(m: seq<bv8>, e: Env): (s: seq<bv8>)
    requires |m| >= CFG_BOOTENV_OFFSET + CFG_ENV_SECT_SIZE && IsEnv(e)
    ensures |s| == CFG_ENV_SECT_SIZE && s[..CFG_ENV_SIZE] == Bytes(e)
  {
    Bytes(e) + m[CFG_BOOTENV_OFFSET + CFG_ENV_SIZE..CFG_BOOTENV_OFFSET + CFG_ENV_SECT_SIZE]
  }

  lemma NewSectorIs(m: seq<bv8>, e: Env)
    requires |m| >= CFG_BOOTENV_OFFSET + CFG_ENV_SECT_SIZE && IsEnv(e)
    ensures var b := m[CFG_BOOTENV_OFFSET..CFG_BOOTENV_OFFSET + CFG_ENV_SECT_SIZE];
            NewSector(m, e) == b[..0] + Bytes(e) + b[CFG_ENV_SIZE..]
  {
  }

  lemma SavedIff(m: seq<bv8>, m': seq<bv8>, e: Env, buffer: seq<bv8>)
    requires |m| >= CFG_BOOTENV_OFFSET + CFG_ENV_SECT_SIZE && IsEnv(e) && buffer == NewSector(m, e)
    requires Frame(m, m', CFG_BOOTENV_OFFSET, CFG_ENV_SECT_SIZE)
    ensures |m'| == |m|
    ensures Spliced(m, m', CFG_BOOTENV_OFFSET, Bytes(e)) <==>
      m'[CFG_BOOTENV_OFFSET..CFG_BOOTENV_OFFSET + CFG_ENV_SECT_SIZE] == buffer
    ensures Stored(m') == e <==> m'[CFG_BOOTENV_OFFSET..CFG_BOOTENV_OFFSET + CFG_ENV_SIZE] == Bytes(e)
  {
    var x := m'[CFG_BOOTENV_OFFSET..CFG_BOOTENV_OFFSET + CFG_ENV_SECT_SIZE];
    AsEnvBytes(e);
    if x == buffer {
      forall i | 0 <= i < |m|
        ensures var k := i - CFG_BOOTENV_OFFSET;
                m'[i] == if 0 <= k < |Bytes(e)| then Bytes(e)[k] else m[i]
      {
        if CFG_BOOTENV_OFFSET <= i < CFG_BOOTENV_OFFSET + CFG_ENV_SECT_SIZE {
          assert m'[i] == x[i - CFG_BOOTENV_OFFSET] == buffer[i - CFG_BOOTENV_OFFSET];
        }
      }
    }
    if Spliced(m, m', CFG_BOOTENV_OFFSET, Bytes(e)) {
      forall k | 0 <= k < CFG_ENV_SECT_SIZE
        ensures x[k] == buffer[k]
      {
        assert x[k] == m'[CFG_BOOTENV_OFFSET + k];
      }
    }
    EnvBytes(m'[CFG_BOOTENV_OFFSET..CFG_BOOTENV_OFFSET + CFG_ENV_SIZE], e);
  }

  lemma EnvBytes(b: seq<bv8>, e: Env)
    requires |b| == CFG_ENV_SIZE && IsEnv(e)
    ensures AsEnv(b) == e <==> b == Bytes(e)
  {
    AsEnvBytes(e);
    assert b == b[..ENV_HEADER_SIZE] + b[ENV_HEADER_SIZE..];
  }

  // gd->env_addr and gd->env_valid, and env_ptr; crc32 is any function of the
  // data.
  class Store {
    const chip: Chip
    const crc32: seq<bv8> -> seq<bv8>
    const defaults: seq<bv8>
    var envPtr: Env
    var envAddr: seq<bv8>
    var envValid: bool

    ghost predicate Valid()
      reads this, chip
    {
      chip.Valid() && IsEnv(envPtr)
    }

    constructor (chip: Chip, crc32: seq<bv8> -> seq<bv8>, defaults: seq<bv8>, env: Env)
      requires chip.Valid() && IsEnv(env)
      ensures Valid() && this.chip == chip && this.crc32 == crc32 && this.defaults == defaults && envPtr == env
    {
      this.chip, this.crc32, this.defaults := chip, crc32, defaults;
      envPtr, envAddr, envValid := env, defaults, false;
    }

    // The waits behind the erase command and behind the last piece do not matter.
    // Those in front of the pieces are not looked at either, but each decides
    // whether its piece is written.
    method SaveEnv() returns (rcode: int)
      requires Valid()
      modifies chip
      ensures Valid() && (old(chip.timedOut) ==> chip.timedOut)
      ensures !chip.timedOut ==> rcode == 0
      ensures rcode == 0 || rcode == 1
      ensures rcode == 0 <==> ReportsSaved(chip, old(chip.polls))
      ensures rcode == 0 && !chip.timedOut ==>
        Spliced(old(chip.mem), chip.mem, CFG_BOOTENV_OFFSET, Bytes(envPtr))
      ensures rcode == 0 ==>
        (Spliced(old(chip.mem), chip.mem, CFG_BOOTENV_OFFSET, Bytes(envPtr)) <==>
         Raspi.Spared(chip, old(chip.polls) + FIRST_PIECE, false, NewSector(old(chip.mem), envPtr)))
      ensures rcode == 0 ==>
        (Stored(chip.mem) == envPtr <==> Raspi.Spared(chip, old(chip.polls) + FIRST_PIECE, false, Bytes(envPtr)))
      ensures Frame(old(chip.mem), chip.mem, CFG_BOOTENV_OFFSET, CFG_ENV_SECT_SIZE)
    {
      hide Frame, Blank, Programmed, Spliced, Raspi.WritesOut, Raspi.RoundUp, Bytes, Effect, Raspi.TakenBy,
        Raspi.Spared, Raspi.Erased, Stored, Raspi.ErasesAll;
      var flashOffset := CFG_BOOTENV_OFFSET % CFG_ENV_SECT_SIZE;
      var sectAddr := CFG_BOOTENV_OFFSET - flashOffset;
      var len := CFG_ENV_SECT_SIZE;
      Raspi.RoundUpSector();
      Raspi.NothingYet(chip.mem, sectAddr, len);
      var got, buffer := Raspi.Read(chip, sectAddr, len);
      if got != len {
        return 1;
      }
      AsEnvBytes(envPtr);
      buffer := buffer[..flashOffset] + Bytes(envPtr) + buffer[flashOffset + CFG_ENV_SIZE..];
      assert buffer == NewSector(old(chip.mem), envPtr) by { NewSectorIs(old(chip.mem), envPtr); }
      Raspi.OneSector(chip, chip.polls);
      var failed := Raspi.Erase(chip, sectAddr, len);
      if failed != 0 {
        return 1;
      }
      ghost var m1 := chip.mem;
      var rc;
      ghost var t;
      rc, t := Raspi.Write(chip, buffer, sectAddr, len);
      if rc != len {
        return 1;
      }
      Raspi.FrameTwice(old(chip.mem), m1, chip.mem, sectAddr, len);
      assert buffer[..len] == buffer;
      ghost var p := old(chip.polls) + FIRST_PIECE;
      if !chip.timedOut {
        Raspi.BlankThenProgrammed(m1, chip.mem, sectAddr, buffer);
      }
      Raspi.StartThere(m1, t, sectAddr, buffer, len, chip, p, false);
      Raspi.StartThere(m1, t, sectAddr, buffer, CFG_ENV_SIZE, chip, p, false);
      SavedIff(old(chip.mem), chip.mem, envPtr, buffer);
      return 0;
    }

    // spi_env_init; `granted` is what malloc says.
    method Init(granted: bool) returns (rc: int)
      requires Valid()
      modifies this, chip`wip, chip`polls, chip`timedOut
      ensures Valid() && (old(chip.timedOut) ==> chip.timedOut)
      ensures rc == if granted && chip.schedule(old(chip.polls)) == Ready then 0 else -1
      ensures rc != 0 && granted ==> chip.timedOut
      ensures rc == 0 && crc32(Stored(chip.mem).data) == Stored(chip.mem).crc ==>
        envValid && envPtr == Stored(chip.mem) && envAddr == envPtr.data
      ensures rc == 0 && crc32(Stored(chip.mem).data) != Stored(chip.mem).crc ==>
        !envValid && envAddr == defaults
      ensures rc == 0 ==> envPtr == Stored(chip.mem)
      ensures rc != 0 ==> envValid == old(envValid) && envAddr == old(envAddr)
    {
      if !granted {
        return -1;
      }
      var got, bytes := Raspi.Read(chip, CFG_BOOTENV_OFFSET, CFG_ENV_SIZE);
      if got != CFG_ENV_SIZE {
        return -1;
      }
      envPtr := AsEnv(bytes);
      if crc32(envPtr.data) == envPtr.crc {
        envAddr := envPtr.data;
        envValid := true;
        return 0;
      }
      envAddr := defaults;
      envValid := false;
      return 0;
    }
  }

  // What saveenv stores is what the next init finds, if the CRC was current and
  // each piece of it whose wait gave up on the busy chip is all ones; otherwise
  // it finds something else, although saveenv reported success.
  method SaveThenInit(store: Store, other: Store, granted: bool) returns (saved: int, found: int)
    requires store.Valid() && other.Valid() && store.chip == other.chip && store.crc32 == other.crc32 && store != other
    requires store.envPtr.crc == store.crc32(store.envPtr.data)
    modifies store.chip, other
    ensures store.Valid() && other.Valid() && store.envPtr == old(store.envPtr)
    ensures saved == 0 <==> ReportsSaved(store.chip, old(store.chip.polls))
    ensures !store.chip.timedOut ==> saved == 0 && (found == 0 <==> granted)
    ensures saved == 0 && found == 0 ==>
      (other.envValid && other.envAddr == store.envPtr.data && other.envPtr == store.envPtr <==>
       Raspi.Spared(store.chip, old(store.chip.polls) + FIRST_PIECE, false, Bytes(store.envPtr)))
    ensures saved == 0 && found == 0 && !store.chip.timedOut ==>
      other.envValid && other.envAddr == store.envPtr.data && other.envPtr == store.envPtr
  {
    hide Spliced, Frame, Bytes, Raspi.Spared;
    saved := store.SaveEnv();
    if saved == 0 && !store.chip.timedOut { StoredSpliced(old(store.chip.mem), store.chip.mem, store.envPtr); }
    found := other.Init(granted);
  }

  // A save that reports success and is lost: the wait in front of the second
  // piece gives up on the busy chip, and those 32 bytes stay erased.
  method LostSave(crc32: seq<bv8> -> seq<bv8>, defaults: seq<bv8>) returns (store: Store, rcode: int)
    ensures store.Valid() && rcode == 0 && Stored(store.chip.mem) != store.envPtr
  {
    hide Spliced, Frame, Blank, Bytes, Raspi.Takes;
    var chip := new Chip(64, i => if i == FIRST_PIECE + 1 then Late else Ready);
    var env := Env(seq(ENV_HEADER_SIZE, _ => 0), seq(ENV_SIZE, _ => 0));
    store := new Store(chip, crc32, defaults, env);
    LostPiece(chip, env);
    rcode := store.SaveEnv();
  }

  lemma LostPiece(chip: Chip, env: Env)
    requires IsEnv(env) && (forall k :: 0 <= k < ENV_SIZE ==> env.data[k] == 0)
      && chip.schedule(FIRST_PIECE + 1) == Late
    ensures !Raspi.Spared(chip, FIRST_PIECE, false, Bytes(env))
  {
    AsEnvBytes(env);
    var piece := Bytes(env)[Raspi.MORE * 1..Raspi.MORE * 1 + Raspi.MORE];
    assert piece[0] == env.data[28];
    assert !Raspi.Takes(chip, FIRST_PIECE, false, 1) && !Raspi.AllOnes(piece);
  }

  lemma StoredSpliced(m: seq<bv8>, m': seq<bv8>, e: Env)
    requires IsEnv(e) && Spliced(m, m', CFG_BOOTENV_OFFSET, Bytes(e))
    ensures |m'| >= CFG_BOOTENV_OFFSET + CFG_ENV_SIZE && Stored(m') == e
  {
    AsEnvBytes(e);
    assert m'[CFG_BOOTENV_OFFSET..CFG_BOOTENV_OFFSET + CFG_ENV_SIZE] == Bytes(e);
  }
}
