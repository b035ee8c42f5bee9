/** Archive entries, as the tar reader delivers them and the tar writer takes them. */
module Tar {
  import opened LayerTree

  /** The content of an empty file. */
  const EMPTY_CONTENT := 0

  datatype Kind =
    | RegKind | DirKind | SymlinkKind | LinkKind
    | CharKind | BlockKind | FifoKind
    | PaxKind      // extended headers, which carry no entry of their own
    | UnknownKind

  datatype Header = Header(
    name: string,
    kind: Kind,
    link: string,
    meta: Meta,
    content: int,
    major: int,
    minor: int,
    pax: map<string, string>,
    xattrs: map<string, string>)
}
