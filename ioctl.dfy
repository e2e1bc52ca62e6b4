/**
 * The btrfs subvolume control calls: the bounded name encoder and the
 * construction of the `btrfs_ioctl_vol_args_v2` request for snapshot
 * creation and subvolume destruction. The kernel call itself is outside
 * the model: its outcome is a parameter, and the builders report the
 * request they would hand to the kernel.
 */
module Ioctl {
  import opened Results

  /** An unsigned byte, as in an `OsStr`. */
  newtype u8 = x: int | 0 <= x < 256

  /** A C `char`; signed on x86_64, the platform the model follows. */
  newtype CChar = x: int | -128 <= x < 128

  /** A kernel error number. */
  type Errno = int

  const EINVAL: Errno := 22

  /** BTRFS_SUBVOL_NAME_MAX in the Linux btrfs UAPI. */
  const SUBVOL_NAME_MAX: nat := 4039

  /** Length of the `name` array of `btrfs_ioctl_vol_args_v2` (room for the NUL). */
  const NAME_CAPACITY: nat := SUBVOL_NAME_MAX + 1

  /** BTRFS_SUBVOL_RDONLY, bit 1 of the `flags` field. */
  const SUBVOL_RDONLY: int := 2

  /** The cast `b as c_char`: the same bit pattern read as a signed byte. */
  function AsCChar(b: u8): (c: CChar)
    ensures (c == 0) <==> (b == 0)
    ensures b < 128 ==> c as int == b as int
    ensures b >= 128 ==> c as int == b as int - 256
  {
    if b < 128 then b as int as CChar else (b as int - 256) as CChar
  }

  /** The reverse cast, reading a `c_char` back as an unsigned byte. */
  function AsByte(c: CChar): (b: u8)
    ensures AsCChar(b) == c
  {
    if c >= 0 then c as int as u8 else (c as int + 256) as u8
  }

  lemma CastRoundTrip(b: u8)
    ensures AsByte(AsCChar(b)) == b
  {
  }

  /** A name the kernel request can carry: no embedded NUL, and room for the trailing NUL. */
  predicate IsValidName(name: seq<u8>)
  {
    0 !in name && |name| < NAME_CAPACITY
  }

  /**
   * The name array of a zero-initialised argument struct after a successful
   * copy of `name`: the name's bytes, then zeros up to the capacity.
   */
  function EncodeName(name: seq<u8>): (buf: seq<CChar>)
    requires |name| < NAME_CAPACITY
    ensures |buf| == NAME_CAPACITY
    ensures forall i :: 0 <= i < |name| ==> buf[i] == AsCChar(name[i])
    ensures forall i :: |name| <= i < |buf| ==> buf[i] == 0
    ensures 0 !in name ==> forall i :: 0 <= i < |name| ==> buf[i] != 0
  {
    seq(NAME_CAPACITY, i requires 0 <= i < NAME_CAPACITY => if i < |name| then AsCChar(name[i]) else 0)
  }

  /** What the kernel reads from a name array: the bytes up to the first NUL. */
  function DecodeName(buf: seq<CChar>): (name: seq<u8>)
    ensures 0 !in name && |name| <= |buf|
    ensures forall i :: 0 <= i < |name| ==> buf[i] != 0 && buf[i] == AsCChar(name[i])
    ensures |name| < |buf| ==> buf[|name|] == 0
  {
    if buf == [] || buf[0] == 0 then [] else [AsByte(buf[0])] + DecodeName(buf[1..])
  }

  /** Reading back a buffer that holds `name` and then a NUL yields `name`. */
  lemma {:induction false} DecodeNulTerminated(name: seq<u8>, buf: seq<CChar>)
    requires 0 !in name && |name| < |buf|
    requires forall i :: 0 <= i < |name| ==> buf[i] == AsCChar(name[i])
    requires buf[|name|] == 0
    ensures DecodeName(buf) == name
  {
    if name != [] {
      assert buf[0] == AsCChar(name[0]) && buf[0] != 0;
      CastRoundTrip(name[0]);
      DecodeNulTerminated(name[1..], buf[1..]);
      assert name == [name[0]] + name[1..];
    }
  }

  /** Round trip of the name encoding for every name the encoder accepts. */
  lemma DecodeEncode(name: seq<u8>)
    requires IsValidName(name)
    ensures DecodeName(EncodeName(name)) == name
  {
    DecodeNulTerminated(name, EncodeName(name));
  }

  /**
   * `copy_os_str`: copy `src` into the fixed-capacity array `dst`. A source
   * with an embedded NUL, or one too long to leave room for the trailing
   * NUL, is rejected with EINVAL before anything is written. On success the
   * first `|src|` elements hold the bytes of `src` and the rest are untouched.
   */
  method CopyOsStr(src: seq<u8>, dst: array<CChar>) returns (r: Result<(), Errno>)
    modifies dst
    ensures r.Err? <==> (0 in src || |src| >= dst.Length)
    ensures r.Err? ==> r.error == EINVAL && dst[..] == old(dst[..])
    ensures r.Ok? ==> forall i :: 0 <= i < |src| ==> dst[i] == AsCChar(src[i])
    ensures r.Ok? ==> forall i :: |src| <= i < dst.Length ==> dst[i] == old(dst[i])
  {
    if 0 in src || |src| >= dst.Length {
      return Err(EINVAL);
    }
    for i := 0 to |src|
      invariant forall k :: 0 <= k < i ==> dst[k] == AsCChar(src[k])
      invariant forall k :: i <= k < dst.Length ==> dst[k] == old(dst[k])
    {
      dst[i] := AsCChar(src[i]);
    }
    return Ok(());
  }

  /** `btrfs_ioctl_vol_args_v2` with the fields this program sets. */
  class VolArgsV2 {
    var fd: int
    var flags: int
    const name: array<CChar>

    /** `mem::zeroed()`: every field zero. */
    constructor Zeroed()
      ensures fd == 0 && flags == 0
      ensures fresh(name) && name.Length == NAME_CAPACITY
      ensures forall i :: 0 <= i < name.Length ==> name[i] == 0
    {
      fd := 0;
      flags := 0;
      name := new CChar[NAME_CAPACITY](_ => 0);
    }
  }

  /** The argument struct as the kernel receives it (it is passed by value). */
  datatype VolArgs = VolArgs(fd: int, flags: int, name: seq<CChar>)

  datatype Command = IocSnapCreateV2 | IocSnapDestroyV2

  /** One control call: the command, the directory it is issued on, and its argument. */
  datatype Request = Request(cmd: Command, dirFd: int, args: VolArgs)

  /**
   * `snap_create_v2`: snapshot the subvolume open as `srcSubvolFd` into the
   * directory `parentDirFd` under `name`, read-only when asked. An invalid
   * name fails with EINVAL and no request is issued; otherwise the request
   * is issued and the kernel's outcome `kernel` is returned unchanged.
   */
  method SnapCreateV2(parentDirFd: int, name: seq<u8>, srcSubvolFd: int, readonly: bool,
                      kernel: Result<(), Errno>)
    returns (issued: Option<Request>, r: Result<(), Errno>)
    ensures issued.None? <==> !IsValidName(name)
    ensures issued.None? ==> r == Err(EINVAL)
    ensures issued.Some? ==> r == kernel
    ensures issued.Some? ==>
      var req := issued.value;
      && req.cmd == IocSnapCreateV2 && req.dirFd == parentDirFd
      && req.args.fd == srcSubvolFd
      && req.args.flags == (if readonly then SUBVOL_RDONLY else 0)
      && req.args.name == EncodeName(name)
      && DecodeName(req.args.name) == name
  {
    var args := new VolArgsV2.Zeroed();
    args.fd := srcSubvolFd;
    if readonly {
      args.flags := SUBVOL_RDONLY;
    }
    var copied := CopyOsStr(name, args.name);
    if copied.Err? {
      return None, Err(copied.error);
    }
    assert args.name[..] == EncodeName(name);
    DecodeEncode(name);
    issued := Some(Request(IocSnapCreateV2, parentDirFd, VolArgs(args.fd, args.flags, args.name[..])));
    r := kernel;
  }

  /**
   * `snap_destroy_v2`: delete the subvolume `name` inside `parentDirFd`. The
   * subvolume is located by parent directory and name alone: the `fd` field
   * stays zero and the flags are zero. An invalid name fails with EINVAL and
   * no request is issued.
   */
  method SnapDestroyV2(parentDirFd: int, name: seq<u8>, kernel: Result<(), Errno>)
    returns (issued: Option<Request>, r: Result<(), Errno>)
    ensures issued.None? <==> !IsValidName(name)
    ensures issued.None? ==> r == Err(EINVAL)
    ensures issued.Some? ==> r == kernel
    ensures issued.Some? ==>
      var req := issued.value;
      && req.cmd == IocSnapDestroyV2 && req.dirFd == parentDirFd
      && req.args.fd == 0 && req.args.flags == 0
      && req.args.name == EncodeName(name)
      && DecodeName(req.args.name) == name
  {
    var args := new VolArgsV2.Zeroed();
    args.flags := 0;
    var copied := CopyOsStr(name, args.name);
    if copied.Err? {
      return None, Err(copied.error);
    }
    assert args.name[..] == EncodeName(name);
    DecodeEncode(name);
    issued := Some(Request(IocSnapDestroyV2, parentDirFd, VolArgs(args.fd, args.flags, args.name[..])));
    r := kernel;
  }
}
