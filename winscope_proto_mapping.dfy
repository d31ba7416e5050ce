/**
 * The mapping from Winscope and Android trace tables to the protos their
 * rows were decoded from: the proto name, the fields a table keeps, and the
 * column that groups rows.
 */
module WinscopeProtoMapping {
  import opened Wrappers

  /** The twelve tables the mapping knows. */
  datatype WinscopeTable =
    | SurfaceFlingerLayer
    | SurfaceFlingerLayersSnapshot
    | SurfaceFlingerTransactions
    | WindowManagerShellTransitionProtos
    | InputMethodClients
    | InputMethodManagerService
    | InputMethodService
    | ViewCapture
    | WindowManager
    | AndroidKeyEvents
    | AndroidMotionEvents
    | AndroidInputEventDispatch

  /**
   * The SQL name of each table, as its generated table class reports it
   * through Name(). The generated table definitions are not part of this
   * model, so the names are a parameter of every lookup.
   */
  type TableNames = WinscopeTable -> string

  /** The twelve tables have twelve different names. */
  ghost predicate DistinctNames(name: TableNames) {
    forall a, b :: a != b ==> name(a) != name(b)
  }

  /** The fully qualified proto message each table's rows hold. */
  function ProtoNameOf(t: WinscopeTable): string {
    match t
    case SurfaceFlingerLayer => ".perfetto.protos.LayerProto"
    case SurfaceFlingerLayersSnapshot => ".perfetto.protos.LayersSnapshotProto"
    case SurfaceFlingerTransactions => ".perfetto.protos.TransactionTraceEntry"
    case WindowManagerShellTransitionProtos => ".perfetto.protos.ShellTransition"
    case InputMethodClients => ".perfetto.protos.InputMethodClientsTraceProto"
    case InputMethodManagerService => ".perfetto.protos.InputMethodManagerServiceTraceProto"
    case InputMethodService => ".perfetto.protos.InputMethodServiceTraceProto"
    case ViewCapture => ".perfetto.protos.ViewCapture"
    case WindowManager => ".perfetto.protos.WindowManagerTraceEntry"
    case AndroidKeyEvents => ".perfetto.protos.AndroidKeyEvent"
    case AndroidMotionEvents => ".perfetto.protos.AndroidMotionEvent"
    case AndroidInputEventDispatch => ".perfetto.protos.AndroidWindowInputDispatchEvent"
  }

  /**
   * The string a C-string view of s reads: the characters before the first
   * NUL, or all of s when it holds none.
   */
  function CStr(s: string): (r: string)
    ensures r <= s && '\0' !in r
    ensures |r| < |s| ==> s[|r|] == '\0'
    ensures '\0' !in s ==> r == s
  {
    if s == [] || s[0] == '\0' then []
    else [s[0]] + CStr(s[1..])
  }

  /**
   * The error GetProtoName reports for a table it does not know. The name is
   * formatted with %s from c_str(), so only its part before the first NUL shows.
   */
  function NoDescriptorError(tableName: string): string {
    CStr(tableName) + " table does not have proto descriptor."
  }

  /** A name without NUL appears whole in the error text. */
  lemma NoDescriptorErrorWholeName(tableName: string)
    requires '\0' !in tableName
    ensures NoDescriptorError(tableName) == tableName + " table does not have proto descriptor."
  {
  }

  /** A name with a NUL appears only up to it: "a\0b" gets the error text of "a". */
  lemma NoDescriptorErrorCutsAtNul()
    ensures CStr("a\0b") == "a"
    ensures NoDescriptorError("a\0b") == NoDescriptorError("a")
  {
    var name := "a\0b";
    assert name[1..][0] == '\0';
    assert CStr(name[1..]) == [];
    assert CStr(name) == [name[0]] + CStr(name[1..]);
  }

  /**
   * The proto name for a table name: found exactly when the name is one of the
   * twelve, and then it is the proto of a table with that name.
   */
  function GetProtoName(name: TableNames, tableName: string): (r: Result<string, string>)
    ensures r.Success? <==> exists t :: name(t) == tableName
    ensures r.Success? ==> exists t :: name(t) == tableName && r.value == ProtoNameOf(t)
    ensures r.Failure? ==> r.error == NoDescriptorError(tableName)
  {
    if tableName == name(SurfaceFlingerLayer) then Success(".perfetto.protos.LayerProto")
    else if tableName == name(SurfaceFlingerLayersSnapshot) then Success(".perfetto.protos.LayersSnapshotProto")
    else if tableName == name(SurfaceFlingerTransactions) then Success(".perfetto.protos.TransactionTraceEntry")
    else if tableName == name(WindowManagerShellTransitionProtos) then Success(".perfetto.protos.ShellTransition")
    else if tableName == name(InputMethodClients) then Success(".perfetto.protos.InputMethodClientsTraceProto")
    else if tableName == name(InputMethodManagerService) then Success(".perfetto.protos.InputMethodManagerServiceTraceProto")
    else if tableName == name(InputMethodService) then Success(".perfetto.protos.InputMethodServiceTraceProto")
    else if tableName == name(ViewCapture) then Success(".perfetto.protos.ViewCapture")
    else if tableName == name(WindowManager) then Success(".perfetto.protos.WindowManagerTraceEntry")
    else if tableName == name(AndroidKeyEvents) then Success(".perfetto.protos.AndroidKeyEvent")
    else if tableName == name(AndroidMotionEvents) then Success(".perfetto.protos.AndroidMotionEvent")
    else if tableName == name(AndroidInputEventDispatch) then Success(".perfetto.protos.AndroidWindowInputDispatchEvent")
    else
      NotATableName(name, tableName);
      Failure(NoDescriptorError(tableName))
  }

  /** A name that differs from each of the twelve table names names no table. */
  lemma NotATableName(name: TableNames, tableName: string)
    requires tableName != name(SurfaceFlingerLayer) && tableName != name(SurfaceFlingerLayersSnapshot)
    requires tableName != name(SurfaceFlingerTransactions) && tableName != name(WindowManagerShellTransitionProtos)
    requires tableName != name(InputMethodClients) && tableName != name(InputMethodManagerService)
    requires tableName != name(InputMethodService) && tableName != name(ViewCapture)
    requires tableName != name(WindowManager) && tableName != name(AndroidKeyEvents)
    requires tableName != name(AndroidMotionEvents) && tableName != name(AndroidInputEventDispatch)
    ensures forall t :: name(t) != tableName
  {
    forall t
      ensures name(t) != tableName
    {
      match t
      case SurfaceFlingerLayer =>
      case SurfaceFlingerLayersSnapshot =>
      case SurfaceFlingerTransactions =>
      case WindowManagerShellTransitionProtos =>
      case InputMethodClients =>
      case InputMethodManagerService =>
      case InputMethodService =>
      case ViewCapture =>
      case WindowManager =>
      case AndroidKeyEvents =>
      case AndroidMotionEvents =>
      case AndroidInputEventDispatch =>
    }
  }

  /** The proto fields kept for the layers-snapshot table. */
  const LayersSnapshotFields: seq<nat> := [1, 2, 4, 5, 6, 7, 8]

  predicate StrictlyIncreasing(s: seq<nat>) {
    forall a, b :: 0 <= a < b < |s| ==> s[a] < s[b]
  }

  /**
   * The allowed fields of a table: only the layers-snapshot table has a list,
   * and it keeps exactly the fields 1 to 8 except field 3, in increasing order.
   */
  function GetAllowedFields(name: TableNames, tableName: string): (r: Option<seq<nat>>)
    ensures r.Some? <==> tableName == name(SurfaceFlingerLayersSnapshot)
    ensures r.Some? ==> StrictlyIncreasing(r.value)
    ensures r.Some? ==> forall f :: f in r.value <==> 1 <= f <= 8 && f != 3
  {
    if tableName == name(SurfaceFlingerLayersSnapshot) then Some(LayersSnapshotFields)
    else None
  }

  /** The group-id column: only the shell-transition table has one, "transition_id". */
  function GetGroupIdColName(name: TableNames, tableName: string): (r: Option<string>)
    ensures r.Some? <==> tableName == name(WindowManagerShellTransitionProtos)
    ensures r.Some? ==> r.value == "transition_id"
  {
    if tableName == name(WindowManagerShellTransitionProtos) then Some("transition_id")
    else None
  }

  /**
   * With distinct table names at most one branch of GetProtoName matches, so
   * every table gets its own proto name.
   */
  lemma ProtoNameOfEachTable(name: TableNames, t: WinscopeTable)
    requires DistinctNames(name)
    ensures GetProtoName(name, name(t)) == Success(ProtoNameOf(t))
  {
  }

  /** The layers-snapshot table, the one with allowed fields, also has a proto name. */
  lemma AllowedFieldsHaveProto(name: TableNames, tableName: string)
    requires GetAllowedFields(name, tableName).Some?
    ensures GetProtoName(name, tableName).Success?
    ensures DistinctNames(name) ==> GetProtoName(name, tableName) == Success(".perfetto.protos.LayersSnapshotProto")
  {
  }

  /** The shell-transition table, the one with a group-id column, also has a proto name. */
  lemma GroupIdHasProto(name: TableNames, tableName: string)
    requires GetGroupIdColName(name, tableName).Some?
    ensures GetProtoName(name, tableName).Success?
    ensures DistinctNames(name) ==> GetProtoName(name, tableName) == Success(".perfetto.protos.ShellTransition")
  {
  }
}
