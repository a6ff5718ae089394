/** Import resolution, once in the linker and once in the loader. */
module Imports {
  import opened Bytes
  import opened Wrappers
  import Dlls

  const MAGIC_API_BASE := 0x100_0000
  const STUB_AREA_SIZE := 16384

  /** Thunk range of each module both sides know (lx_link.rs:925-944, descriptors.rs:90-101). */
  function BuiltinBase(name: string): Option<u32> {
    match name
    case "DOSCALLS" => Some(0)
    case "QUECALLS" => Some(1024)
    case "PMWIN" => Some(2048)
    case "PMGPI" => Some(3072)
    case "KBDCALLS" => Some(4096)
    case "VIOCALLS" => Some(5120)
    case "SESMGR" => Some(6144)
    case "NLS" => Some(7168)
    case "MSG" => Some(8192)
    case "MDM" => Some(10240)
    case "UCONV" => Some(12288)
    case _ => None
  }

  /** The linker's `resolve_import`: an unknown module gets the bare thunk base. */
  function LinkerResolve(name: string, ordinal: u32): u32 {
    match BuiltinBase(name)
    case Some(base) => (MAGIC_API_BASE + base + ordinal) % TWO32
    case None => MAGIC_API_BASE
  }

  /**
   * What the loader can resolve beyond the built-in ordinals: exports of loaded DLLs, by their
   * upper-case names, and the name-to-ordinal tables for imports by name.
   */
  datatype Symbols = Symbols(dlls: map<string, map<u32, u32>>, ordinals: map<(string, string), u32>)

  /** The loader's `resolve_import`, a 64-bit value. */
  function LoaderResolve(symbols: Symbols, name: string, ordinal: u32): nat {
    match BuiltinBase(name)
    case Some(base) => MAGIC_API_BASE + base + ordinal
    case None =>
      if name == "SO32DLL" then MAGIC_API_BASE + 13312 + ordinal
      else if name == "TCP32DLL" then MAGIC_API_BASE + 14336 + ordinal
      else if Dlls.Upper(name) in symbols.dlls && ordinal in symbols.dlls[Dlls.Upper(name)] then symbols.dlls[Dlls.Upper(name)][ordinal]
      else MAGIC_API_BASE + STUB_AREA_SIZE - 1
  }

  /** The loader's `resolve_import_by_name`; zero when the name is unknown. */
  function LoaderResolveByName(symbols: Symbols, name: string, procName: string): nat {
    if (name, procName) in symbols.ordinals
    then LoaderResolve(symbols, name, symbols.ordinals[(name, procName)])
    else 0
  }
}
