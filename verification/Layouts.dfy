/** Which fields each message of the file-server protocol has. */
module Layouts {
  import opened Varint
  import opened Messages

  datatype Kind =
    | HeaderMessage
    | MountRequest | MountResponse
    | LookupRequest | LookupResponse
    | ReadRequest | ReadFdRequest | ReadResponse
    | ReadDirRequest | ReadDirResponse | DirDataNotification
    | ReadlinkRequest | ReadlinkResponse
    | OpenRequest | OpenResponse | CreateRequest | CreateResponse
    | WriteRequest | WriteFdRequest | WriteResponse
    | MkdirRequest | MkdirResponse | UnlinkRequest | RmdirRequest | RenameRequest
    | SetattrRequest | SetattrResponse
    | SymlinkRequest | SymlinkResponse | LinkRequest | LinkResponse
    | FlushRequest | FlushFdRequest | FlushResponse
    | GetattrRequest | GetattrResponse
    | LockRequest | GetlkResponse | ReleaseFdRequest
    | EmptyResponse

  const U8 := Unsigned(1)
  const U32 := Unsigned(4)
  const U64 := Unsigned(8)
  const I32 := Signed(4)
  const I64 := Signed(8)

  /** Device, inode, links; mode, owner; device, size, blocks, times; content hash. */
  const FILE_ATTR := [U64, U64, U64, U32, U32, U32, U64, I64, I64, I64, I64, I64, I32, I32, Raw(32)]
  const DIR_ENTRY := [Handle, Text] + FILE_ATTR
  const FILE_LOCK := [U64, U64, U32, U32]
  const OWNER := [U8, U32, U32]

  function Layout(k: Kind): seq<Field>
  {
    match k
    case HeaderMessage => [U32, U32, U32, U32]
    case MountRequest => [U32, U32, Text]
    case MountResponse => [U32, U32, Handle] + FILE_ATTR
    case LookupRequest => [Handle, Text]
    case LookupResponse => [Handle] + FILE_ATTR
    case ReadRequest => [Handle, U64, U32]
    case ReadFdRequest => [U32, U64, U32]
    case ReadResponse => [Data(true)]
    case ReadDirRequest => [Handle]
    case ReadDirResponse => [List(DIR_ENTRY)]
    case DirDataNotification => [U64, List(DIR_ENTRY)]
    case ReadlinkRequest => [Handle]
    case ReadlinkResponse => [Text]
    case OpenRequest => [Handle, U32] + OWNER
    case OpenResponse => [U32] + FILE_ATTR
    case CreateRequest => [Handle, Text, U32, U32] + OWNER
    case CreateResponse => [U32, Handle] + FILE_ATTR
    case WriteRequest => [Handle, U64, Data(false)]
    case WriteFdRequest => [U32, U64, Data(false)]
    case WriteResponse => [U32]
    case MkdirRequest => [Handle, Text, U32] + OWNER
    case MkdirResponse => [Handle] + FILE_ATTR
    case UnlinkRequest => [Handle, Text]
    case RmdirRequest => [Handle, Text]
    case RenameRequest => [Handle, Text, Handle, Text]
    case SetattrRequest => [Handle, U32, U32, U32, U32, I64, I64, I64]
    case SetattrResponse => FILE_ATTR
    case SymlinkRequest => [Handle, Text, Text] + OWNER
    case SymlinkResponse => [Handle] + FILE_ATTR
    case LinkRequest => [Handle, Text, Handle]
    case LinkResponse => [Handle] + FILE_ATTR
    case FlushRequest => [Handle, U64, U8, Raw(32)]
    case FlushFdRequest => [U32, U64, U8, Raw(32)]
    case FlushResponse => FILE_ATTR
    case GetattrRequest => [Handle]
    case GetattrResponse => FILE_ATTR
    case LockRequest => [U32, U64] + FILE_LOCK + [U32]
    case GetlkResponse => FILE_LOCK
    case ReleaseFdRequest => [U32]
    case EmptyResponse => []
  }

  /** A file handle the writer sends without complaint and the reader refuses. */
  lemma LongHandleIsRefused(b: seq<Byte>, rest: seq<Byte>)
    requires 1024 < |b| < 0x1_0000_0000
    ensures var vs := [FileHandle(0, b)];
      && FitsAll(Layout(GetattrRequest), vs) && WriteAll(Layout(GetattrRequest), vs).ok
      && ReadAll(Layout(GetattrRequest), WriteAll(Layout(GetattrRequest), vs).bytes + rest).value.None?
  {
    ShortLength(|b|);
    var vs := [FileHandle(0, b)];
    assert [Handle][1..] == [] && vs[1..] == [];
    var n := Little(|b|, 4);
    var s := WriteAll([Handle], vs).bytes + rest;
    assert s == n + (Little(0, 4) + b + rest);
    LittleRoundTrip(|b|, 4);
    assert s[..4] == n;
  }
}
