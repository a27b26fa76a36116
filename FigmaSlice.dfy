/**
 * The front end's design-file store (frontend/src/lib/redux/figmaSlice.ts):
 * three request kinds, each with a loading flag and an error, the last file
 * fetched, and the frame currently selected with its node data and code.
 *
 * `Reduce` is the reducer as a function of the state and the action;
 * `FigmaStore` holds the same state in fields that each case assigns in
 * place, and every method is proved to leave the fields as `Reduce` says.
 */
module FigmaSlice {
  import opened Wrappers

  /** A JavaScript value, as far as the store looks at it: only whether it is truthy matters. */
  datatype Json =
    | Undefined
    | Null
    | Bool(b: bool)
    | Number(n: real)
    | NaN
    | Str(s: string)
    | Array(items: seq<Json>)
    | Object(fields: seq<(string, Json)>)

  /** `!!v`: `undefined`, `null`, `false`, `0`, `NaN` and `""` are falsy, everything else truthy. */
  predicate Truthy(v: Json) {
    match v
    case Undefined => false
    case Null => false
    case Bool(b) => b
    case Number(n) => n != 0.0
    case NaN => false
    case Str(s) => s != ""
    case Array(_) => true
    case Object(_) => true
  }

  /** The three requests the store tracks. */
  datatype Request = Frames | FrameNode | FrameCode

  /** One flag per request. */
  datatype Loading = Loading(frames: bool, frameNode: bool, frameCode: bool) {
    function Of(k: Request): bool {
      match k
      case Frames => frames
      case FrameNode => frameNode
      case FrameCode => frameCode
    }
  }

  /** One error message per request; `None` is `null`. */
  datatype Errors = Errors(frames: Option<string>, frameNode: Option<string>, frameCode: Option<string>) {
    function Of(k: Request): Option<string> {
      match k
      case Frames => frames
      case FrameNode => frameNode
      case FrameCode => frameCode
    }
  }

  /** The selected frame: its id, its node data and its generated code. */
  datatype Selection = Selection(id: string, data: Json, code: Option<string>)

  datatype State = State(
    currentUrl: Option<string>,
    framesData: Json,
    selectedFrame: Option<Selection>,
    loading: Loading,
    errors: Errors)

  const NoErrors := Errors(None, None, None)

  /** `initialState`: nothing fetched, nothing selected, nothing loading, no error. */
  const Initial := State(None, Null, None, Loading(false, false, false), NoErrors)

  /** The four reducers and the nine cases of the three requests' life cycles. */
  datatype Action =
    | ClearErrors
    | ClearFrameCode
    | SelectFrame(id: string, data: Json)
    | ClearSelection
    | FramesPending
    | FramesFulfilled(url: string, framesData: Json)
    | FramesRejected(message: string)
    | NodePending
    | NodeFulfilled(nodeId: string, nodeData: Json)
    | NodeRejected(nodeMessage: string)
    | CodePending
    | CodeFulfilled(codeId: string, code: string)
    | CodeRejected(codeMessage: string)

  /** The request a life-cycle action belongs to; `None` for the four reducers. */
  function KindOf(a: Action): Option<Request> {
    match a
    case FramesPending | FramesFulfilled(_, _) | FramesRejected(_) => Some(Frames)
    case NodePending | NodeFulfilled(_, _) | NodeRejected(_) => Some(FrameNode)
    case CodePending | CodeFulfilled(_, _) | CodeRejected(_) => Some(FrameCode)
    case _ => None
  }

  /** Every request that is loading has no error. */
  predicate Consistent(s: State) {
    forall k :: s.loading.Of(k) ==> s.errors.Of(k).None?
  }

  function SetLoading(l: Loading, k: Request, v: bool): (r: Loading)
    ensures r.Of(k) == v
    ensures forall k' :: k' != k ==> r.Of(k') == l.Of(k')
  {
    match k
    case Frames => l.(frames := v)
    case FrameNode => l.(frameNode := v)
    case FrameCode => l.(frameCode := v)
  }

  function SetError(e: Errors, k: Request, v: Option<string>): (r: Errors)
    ensures r.Of(k) == v
    ensures forall k' :: k' != k ==> r.Of(k') == e.Of(k')
  {
    match k
    case Frames => e.(frames := v)
    case FrameNode => e.(frameNode := v)
    case FrameCode => e.(frameCode := v)
  }

  /** `pending`: the request's flag raised and its error cleared. */
  function Start(s: State, k: Request): State {
    s.(loading := SetLoading(s.loading, k, true), errors := SetError(s.errors, k, None))
  }

  /** The flag lowered and the error set, as every `fulfilled` and `rejected` case ends. */
  function Finish(s: State, k: Request, error: Option<string>): State {
    s.(loading := SetLoading(s.loading, k, false), errors := SetError(s.errors, k, error))
  }

  /** `figmaSlice.reducer`: the state after one action. */
  function Reduce(s: State, a: Action): (r: State)
    ensures Consistent(s) ==> Consistent(r)
  {
    match a
    case ClearErrors => s.(errors := NoErrors)
    case ClearFrameCode =>
      s.(selectedFrame := if s.selectedFrame.Some? then Some(s.selectedFrame.value.(code := None)) else None,
         errors := s.errors.(frameCode := None))
    case SelectFrame(id, data) =>
      s.(selectedFrame := Some(Selection(id, if Truthy(data) then data else Null, None)))
    case ClearSelection =>
      s.(selectedFrame := None, errors := s.errors.(frameNode := None, frameCode := None))
    case FramesPending => Start(s, Frames)
    case FramesFulfilled(url, data) => Finish(s, Frames, None).(currentUrl := Some(url), framesData := data)
    case FramesRejected(message) => Finish(s, Frames, Some(message))
    case NodePending => Start(s, FrameNode)
    case NodeFulfilled(id, data) =>
      var t := Finish(s, FrameNode, None);
      if s.selectedFrame.Some? && s.selectedFrame.value.id == id
      then t.(selectedFrame := Some(s.selectedFrame.value.(data := data)))
      else t
    case NodeRejected(message) => Finish(s, FrameNode, Some(message))
    case CodePending => Start(s, FrameCode)
    case CodeFulfilled(id, code) =>
      var t := Finish(s, FrameCode, None);
      if s.selectedFrame.Some? && s.selectedFrame.value.id == id
      then t.(selectedFrame := Some(s.selectedFrame.value.(code := Some(code))))
      else t
    case CodeRejected(message) => Finish(s, FrameCode, Some(message))
  }

  /** The state after a sequence of actions, dispatched in order. */
  function Run(s: State, actions: seq<Action>): State
    decreases |actions|
  {
    if actions == [] then s else Run(Reduce(s, actions[0]), actions[1..])
  }

  // ---------------------------------------------------------------- the store

  class FigmaStore {
    var currentUrl: Option<string>
    var framesData: Json
    var selectedFrame: Option<Selection>
    var loading: Loading
    var errors: Errors

    function Snapshot(): State
      reads this
    {
      State(currentUrl, framesData, selectedFrame, loading, errors)
    }

    /** A store in `initialState`. */
    constructor()
      ensures Snapshot() == Initial
    {
      currentUrl := None;
      framesData := Null;
      selectedFrame := None;
      loading := Loading(false, false, false);
      errors := NoErrors;
    }

    /** `clearErrors`. */
    method ClearErrors()
      modifies this
      ensures Snapshot() == Reduce(old(Snapshot()), Action.ClearErrors)
    {
      errors := NoErrors;
    }

    /** `clearFrameCode`. */
    method ClearFrameCode()
      modifies this
      ensures Snapshot() == Reduce(old(Snapshot()), Action.ClearFrameCode)
    {
      if selectedFrame.Some? {
        selectedFrame := Some(selectedFrame.value.(code := None));
      }
      errors := errors.(frameCode := None);
    }

    /** `selectFrame({id, data})`; a missing `data` is `Undefined`. */
    method SelectFrame(id: string, data: Json)
      modifies this
      ensures Snapshot() == Reduce(old(Snapshot()), Action.SelectFrame(id, data))
    {
      selectedFrame := Some(Selection(id, if Truthy(data) then data else Null, None));
    }

    /** `clearSelection`. */
    method ClearSelection()
      modifies this
      ensures Snapshot() == Reduce(old(Snapshot()), Action.ClearSelection)
    {
      selectedFrame := None;
      errors := errors.(frameNode := None);
      errors := errors.(frameCode := None);
    }

    method FramesPending()
      modifies this
      ensures Snapshot() == Reduce(old(Snapshot()), Action.FramesPending)
    {
      loading := loading.(frames := true);
      errors := errors.(frames := None);
    }

    method FramesFulfilled(url: string, data: Json)
      modifies this
      ensures Snapshot() == Reduce(old(Snapshot()), Action.FramesFulfilled(url, data))
    {
      loading := loading.(frames := false);
      currentUrl := Some(url);
      framesData := data;
      errors := errors.(frames := None);
    }

    method FramesRejected(message: string)
      modifies this
      ensures Snapshot() == Reduce(old(Snapshot()), Action.FramesRejected(message))
    {
      loading := loading.(frames := false);
      errors := errors.(frames := Some(message));
    }

    method NodePending()
      modifies this
      ensures Snapshot() == Reduce(old(Snapshot()), Action.NodePending)
    {
      loading := loading.(frameNode := true);
      errors := errors.(frameNode := None);
    }

    method NodeFulfilled(id: string, data: Json)
      modifies this
      ensures Snapshot() == Reduce(old(Snapshot()), Action.NodeFulfilled(id, data))
    {
      loading := loading.(frameNode := false);
      if selectedFrame.Some? && selectedFrame.value.id == id {
        selectedFrame := Some(selectedFrame.value.(data := data));
      }
      errors := errors.(frameNode := None);
    }

    method NodeRejected(message: string)
      modifies this
      ensures Snapshot() == Reduce(old(Snapshot()), Action.NodeRejected(message))
    {
      loading := loading.(frameNode := false);
      errors := errors.(frameNode := Some(message));
    }

    method CodePending()
      modifies this
      ensures Snapshot() == Reduce(old(Snapshot()), Action.CodePending)
    {
      loading := loading.(frameCode := true);
      errors := errors.(frameCode := None);
    }

    method CodeFulfilled(id: string, code: string)
      modifies this
      ensures Snapshot() == Reduce(old(Snapshot()), Action.CodeFulfilled(id, code))
    {
      loading := loading.(frameCode := false);
      if selectedFrame.Some? && selectedFrame.value.id == id {
        selectedFrame := Some(selectedFrame.value.(code := Some(code)));
      }
      errors := errors.(frameCode := None);
    }

    method CodeRejected(message: string)
      modifies this
      ensures Snapshot() == Reduce(old(Snapshot()), Action.CodeRejected(message))
    {
      loading := loading.(frameCode := false);
      errors := errors.(frameCode := Some(message));
    }

    /** `store.dispatch(action)`: the case the action names. */
    method Dispatch(a: Action)
      modifies this
      ensures Snapshot() == Reduce(old(Snapshot()), a)
    {
      match a
      case ClearErrors => ClearErrors();
      case ClearFrameCode => ClearFrameCode();
      case SelectFrame(id, data) => SelectFrame(id, data);
      case ClearSelection => ClearSelection();
      case FramesPending => FramesPending();
      case FramesFulfilled(url, data) => FramesFulfilled(url, data);
      case FramesRejected(message) => FramesRejected(message);
      case NodePending => NodePending();
      case NodeFulfilled(id, data) => NodeFulfilled(id, data);
      case NodeRejected(message) => NodeRejected(message);
      case CodePending => CodePending();
      case CodeFulfilled(id, code) => CodeFulfilled(id, code);
      case CodeRejected(message) => CodeRejected(message);
    }
  }

  // ---------------------------------------------------------------- properties

  /** `clearErrors` empties all three errors and touches nothing else. */
  lemma ClearErrorsOnlyErrors(s: State)
    ensures var r := Reduce(s, ClearErrors);
      && (forall k :: r.errors.Of(k).None?)
      && r.loading == s.loading && r.currentUrl == s.currentUrl
      && r.framesData == s.framesData && r.selectedFrame == s.selectedFrame
  {
  }

  /** `clearFrameCode` drops the selection's code, keeping the selection, and only the code error. */
  lemma ClearFrameCodeOnlyCode(s: State)
    ensures var r := Reduce(s, ClearFrameCode);
      && r.selectedFrame.Some? == s.selectedFrame.Some?
      && (r.selectedFrame.Some? ==>
            && r.selectedFrame.value.code.None?
            && r.selectedFrame.value.id == s.selectedFrame.value.id
            && r.selectedFrame.value.data == s.selectedFrame.value.data)
      && r.errors.frameCode.None?
      && r.errors.frames == s.errors.frames && r.errors.frameNode == s.errors.frameNode
      && r.loading == s.loading && r.currentUrl == s.currentUrl && r.framesData == s.framesData
  {
  }

  /**
   * `selectFrame` selects the given id with no code; the data is kept when
   * truthy and stored as `null` otherwise. Nothing else changes.
   */
  lemma SelectFrameSelects(s: State, id: string, data: Json)
    ensures var r := Reduce(s, SelectFrame(id, data));
      && r.selectedFrame.Some? && r.selectedFrame.value.id == id && r.selectedFrame.value.code.None?
      && (Truthy(data) ==> r.selectedFrame.value.data == data)
      && (!Truthy(data) ==> r.selectedFrame.value.data == Null)
      && r.errors == s.errors && r.loading == s.loading
      && r.currentUrl == s.currentUrl && r.framesData == s.framesData
  {
  }

  /** A frame selected without data holds `null`, never `undefined`. */
  lemma SelectWithoutData(s: State, id: string)
    ensures Reduce(s, SelectFrame(id, Undefined)).selectedFrame == Some(Selection(id, Null, None))
  {
  }

  /** `clearSelection` drops the selection and the node and code errors, but keeps the listing error. */
  lemma ClearSelectionKeepsFramesError(s: State)
    ensures var r := Reduce(s, ClearSelection);
      && r.selectedFrame.None?
      && r.errors.frameNode.None? && r.errors.frameCode.None?
      && r.errors.frames == s.errors.frames
      && r.loading == s.loading && r.currentUrl == s.currentUrl && r.framesData == s.framesData
  {
  }

  /** A life-cycle action changes the flag and the error of its own request only. */
  lemma OtherRequestsUntouched(s: State, a: Action, k: Request)
    requires KindOf(a).Some? && KindOf(a).value != k
    ensures Reduce(s, a).loading.Of(k) == s.loading.Of(k)
    ensures Reduce(s, a).errors.Of(k) == s.errors.Of(k)
  {
  }

  /** `pending` raises its own flag and clears its own error, and changes no data. */
  lemma PendingStarts(s: State, a: Action)
    requires a.FramesPending? || a.NodePending? || a.CodePending?
    ensures var r, k := Reduce(s, a), KindOf(a).value;
      && r.loading.Of(k) && r.errors.Of(k).None?
      && r.currentUrl == s.currentUrl && r.framesData == s.framesData && r.selectedFrame == s.selectedFrame
  {
  }

  /** `rejected` lowers its own flag, stores the message as its error, and changes no data. */
  lemma RejectedStoresError(s: State, a: Action, message: string)
    requires a == FramesRejected(message) || a == NodeRejected(message) || a == CodeRejected(message)
    ensures var r, k := Reduce(s, a), KindOf(a).value;
      && !r.loading.Of(k) && r.errors.Of(k) == Some(message)
      && r.currentUrl == s.currentUrl && r.framesData == s.framesData && r.selectedFrame == s.selectedFrame
  {
  }

  /** A fulfilled listing is stored with the url it was fetched for; the selection stays. */
  lemma FramesFulfilledStores(s: State, url: string, data: Json)
    ensures var r := Reduce(s, FramesFulfilled(url, data));
      && !r.loading.frames && r.errors.frames.None?
      && r.currentUrl == Some(url) && r.framesData == data
      && r.selectedFrame == s.selectedFrame
  {
  }

  /**
   * A node or code response reaches the selection exactly when it is for the
   * selected frame; a response for any other frame, or with nothing selected,
   * leaves the selection as it was.
   */
  lemma ResponseForSelectedFrameOnly(s: State, id: string, data: Json, code: string)
    ensures var r := Reduce(s, NodeFulfilled(id, data));
      && !r.loading.frameNode && r.errors.frameNode.None?
      && r.selectedFrame.Some? == s.selectedFrame.Some?
      && (s.selectedFrame.Some? && s.selectedFrame.value.id == id
          ==> r.selectedFrame.value.data == data
              && r.selectedFrame.value.id == id && r.selectedFrame.value.code == s.selectedFrame.value.code)
      && (!(s.selectedFrame.Some? && s.selectedFrame.value.id == id) ==> r.selectedFrame == s.selectedFrame)
    ensures var r := Reduce(s, CodeFulfilled(id, code));
      && !r.loading.frameCode && r.errors.frameCode.None?
      && r.selectedFrame.Some? == s.selectedFrame.Some?
      && (s.selectedFrame.Some? && s.selectedFrame.value.id == id
          ==> r.selectedFrame.value.code == Some(code)
              && r.selectedFrame.value.id == id && r.selectedFrame.value.data == s.selectedFrame.value.data)
      && (!(s.selectedFrame.Some? && s.selectedFrame.value.id == id) ==> r.selectedFrame == s.selectedFrame)
  {
  }

  /** Only `selectFrame` and `clearSelection` change which frame is selected. */
  lemma SelectionIdStable(s: State, a: Action)
    requires !a.SelectFrame? && !a.ClearSelection?
    ensures Reduce(s, a).selectedFrame.Some? == s.selectedFrame.Some?
    ensures s.selectedFrame.Some? ==> Reduce(s, a).selectedFrame.value.id == s.selectedFrame.value.id
  {
  }

  /** Dispatching the same action twice is the same as dispatching it once. */
  lemma ReduceIdempotent(s: State, a: Action)
    ensures Reduce(Reduce(s, a), a) == Reduce(s, a)
  {
  }

  /** Starting from `initialState`, no request is ever both loading and failed. */
  lemma {:induction false} RunConsistent(s: State, actions: seq<Action>)
    requires Consistent(s)
    ensures Consistent(Run(s, actions))
    decreases |actions|
  {
    if actions != [] {
      RunConsistent(Reduce(s, actions[0]), actions[1..]);
    }
  }

  lemma InitialConsistent()
    ensures Consistent(Initial)
    ensures forall actions :: Consistent(Run(Initial, actions))
  {
    forall actions
      ensures Consistent(Run(Initial, actions))
    {
      RunConsistent(Initial, actions);
    }
  }

  /** Once the selection changes only by responses, its id is the one last selected. */
  lemma {:induction false} SelectThenRespond(s: State, id: string, data: Json, actions: seq<Action>)
    requires forall i :: 0 <= i < |actions| ==> !actions[i].SelectFrame? && !actions[i].ClearSelection?
    ensures var r := Run(Reduce(s, SelectFrame(id, data)), actions);
      r.selectedFrame.Some? && r.selectedFrame.value.id == id
  {
    SelectionKept(Reduce(s, SelectFrame(id, data)), actions);
  }

  lemma {:induction false} SelectionKept(s: State, actions: seq<Action>)
    requires forall i :: 0 <= i < |actions| ==> !actions[i].SelectFrame? && !actions[i].ClearSelection?
    ensures Run(s, actions).selectedFrame.Some? == s.selectedFrame.Some?
    ensures s.selectedFrame.Some? ==> Run(s, actions).selectedFrame.value.id == s.selectedFrame.value.id
    decreases |actions|
  {
    if actions != [] {
      SelectionIdStable(s, actions[0]);
      SelectionKept(Reduce(s, actions[0]), actions[1..]);
    }
  }
}
