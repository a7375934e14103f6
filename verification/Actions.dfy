/** Typed actions (ai-device-kernel/src/action.rs), deadlines left out. */
module Actions {
  import opened Bytes
  import opened Frames

  /** The actions that the byte-level bridge hands to the protocol layer, apart from observations. */
  datatype RoutedElsewhere = TapSelector | Wait | GetUiRepr | LocalizeText | DetectElement | Ground | AskVisual

  datatype Action =
    | Tap(x: i32, y: i32)
    | Swipe(x1: i32, y1: i32, x2: i32, y2: i32, durMs: u32)
    | TypeText(text: seq<char>)
    | Key(code: u32)
    | GamepadFrame(report: Payload)
    | Launch(target: seq<byte>)
    | SetClipboard(clip: seq<byte>, paste: bool)
    | InjectRaw(bytes: seq<byte>)
    | DumpObservation(components: seq<nat>, deadlineMs: u32)
    | Elsewhere(kind: RoutedElsewhere)

  datatype AtomicErrorCode = SelectorMiss | KernelError | Timeout | PermissionDenied | AppNotForeground | NotImplemented
}
