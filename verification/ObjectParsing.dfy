/** The receiving side: the byte input, the reader's loop, the object parser it drives, and the
    listener the parser reports to. */
module ObjectParsing {
  import opened Strings
  import opened CborFormat
  import opened Messages
  import opened Grammar
  import opened MessageObjects
  import opened Wire

  /** Stands for the `ObjectListener` at the end of the chain: it records each handler call
      with the contents the object had at that moment. */
  class ObjectListener {
    var log: seq<Call>

    constructor ()
      ensures log == []
    {
      log := [];
    }

    method Record(call: Call)
      modifies this
      ensures log == old(log) + [call]
    {
      log := log + [call];
    }
  }

  datatype ParserState =
    | INIT
    | REQUEST_WRAPPER_ARRAY | REQUEST_WRAPPER_ID | REQUEST_WRAPPER_BODY
    | REQUEST_GET_ARRAY | REQUEST_GET_DATABASE | REQUEST_GET_TABLE | REQUEST_GET_PK
    | RESPONSE_WRAPPER_ARRAY | RESPONSE_WRAPPER_ID | RESPONSE_WRAPPER_BODY
    | RESPONSE_GET_EMPTY_MAP
    | RESPONSE_GET_OK_MAP | RESPONSE_GET_OK_MAP_KEY | RESPONSE_GET_OK_MAP_VALUE
    | REQUEST_ADD_ARRAY | REQUEST_ADD_DATABASE | REQUEST_ADD_TABLE | REQUEST_ADD_ROW_MAP
    | REQUEST_ADD_ROW_MAP_KEY | REQUEST_ADD_ROW_MAP_VALUE
    | RESPONSE_ADD_OK_MAP
    | RESPONSE_ADD_TRAVERSE_ARRAY | RESPONSE_ADD_TRAVERSE_INIT_REQUEST_ID | RESPONSE_ADD_TRAVERSE_CIPHERTEXT
    | REQUEST_ADD_CONTINUE_ARRAY | REQUEST_ADD_CONTINUE_INIT_REQUEST_ID | REQUEST_ADD_CONTINUE_COMPARE_RESULT

  /** The state of the parser at each point of a message. */
  function StateOf(p: Progress): ParserState {
    match p
    case Init => INIT
    case RequestArray => REQUEST_WRAPPER_ARRAY
    case RequestId => REQUEST_WRAPPER_ID
    case RequestBody(_) => REQUEST_WRAPPER_BODY
    case GetArray(_) => REQUEST_GET_ARRAY
    case GetDatabase(_) => REQUEST_GET_DATABASE
    case GetTable(_, _) => REQUEST_GET_TABLE
    case GetPk(_, _, _) => REQUEST_GET_PK
    case ResponseArray => RESPONSE_WRAPPER_ARRAY
    case ResponseId => RESPONSE_WRAPPER_ID
    case ResponseBody(_) => RESPONSE_WRAPPER_BODY
    case EmptyMap(_) => RESPONSE_GET_EMPTY_MAP
    case OkMap(_) => RESPONSE_GET_OK_MAP
    case OkKey(_, _, _) => RESPONSE_GET_OK_MAP_KEY
    case OkValue(_, _, _, _) => RESPONSE_GET_OK_MAP_VALUE
    case AddArray(_) => REQUEST_ADD_ARRAY
    case AddDatabase(_) => REQUEST_ADD_DATABASE
    case AddTable(_, _) => REQUEST_ADD_TABLE
    case AddRow(_, _, _) => REQUEST_ADD_ROW_MAP
    case AddKey(_, _, _, _, _) => REQUEST_ADD_ROW_MAP_KEY
    case AddValue(_, _, _, _, _, _) => REQUEST_ADD_ROW_MAP_VALUE
    case AddOkMap(_) => RESPONSE_ADD_OK_MAP
    case TraverseArray(_) => RESPONSE_ADD_TRAVERSE_ARRAY
    case TraverseId(_) => RESPONSE_ADD_TRAVERSE_INIT_REQUEST_ID
    case TraverseData(_, _) => RESPONSE_ADD_TRAVERSE_CIPHERTEXT
    case ContinueArray(_) => REQUEST_ADD_CONTINUE_ARRAY
    case ContinueId(_) => REQUEST_ADD_CONTINUE_INIT_REQUEST_ID
    case ContinueCompare(_, _) => REQUEST_ADD_CONTINUE_COMPARE_RESULT
  }

  /** What the parser's fields hold that later events depend on, in the states where they do:
      the request id, and the contents of the current object. Miscast is the current object not
      being of the class the next handler will cast it to. */
  datatype View =
    | Nothing
    | Id(id: nat)
    | Getting(id: nat, database: Option<Str>, table: Option<Str>)
    | Result(id: nat, values: Row, elements: int, key: Option<Str>)
    | Adding(id: nat, database: Option<Str>, table: Option<Str>, row: Row, left: Option<int>, key: Option<Str>)
    | Traversing(id: nat, initRequestId: Option<nat>)
    | Continuing(id: nat, initRequestId: Option<nat>)
    | Miscast

  function Expected(p: Progress): View {
    match p
    case Init | RequestArray | RequestId | ResponseArray | ResponseId => Nothing
    case RequestBody(id) => Id(ToU32(id))
    case ResponseBody(id) => Id(ToU32(id))
    case EmptyMap(id) => Id(ToU32(id))
    case OkMap(id) => Id(ToU32(id))
    case AddOkMap(id) => Id(ToU32(id))
    case GetArray(id) => Getting(ToU32(id), None, None)
    case GetDatabase(id) => Getting(ToU32(id), None, None)
    case GetTable(id, database) => Getting(ToU32(id), Some(database), None)
    case GetPk(id, database, table) => Getting(ToU32(id), Some(database), Some(table))
    case OkKey(id, size, entries) => Result(ToU32(id), MapOf(entries), size - |entries|, None)
    case OkValue(id, size, entries, key) => Result(ToU32(id), MapOf(entries), size - |entries|, Some(key))
    case AddArray(id) => Adding(ToU32(id), None, None, map[], None, None)
    case AddDatabase(id) => Adding(ToU32(id), None, None, map[], None, None)
    case AddTable(id, database) => Adding(ToU32(id), Some(database), None, map[], None, None)
    case AddRow(id, database, table) => Adding(ToU32(id), Some(database), Some(table), map[], None, None)
    case AddKey(id, database, table, size, entries) =>
      Adding(ToU32(id), Some(database), Some(table), MapOf(entries), Some(size - |entries|), None)
    case AddValue(id, database, table, size, entries, key) =>
      Adding(ToU32(id), Some(database), Some(table), MapOf(entries), Some(size - |entries|), Some(key))
    case TraverseArray(id) => Traversing(ToU32(id), None)
    case TraverseId(id) => Traversing(ToU32(id), None)
    case TraverseData(id, initRequestId) => Traversing(ToU32(id), Some(ToU32(initRequestId)))
    case ContinueArray(id) => Continuing(ToU32(id), None)
    case ContinueId(id) => Continuing(ToU32(id), None)
    case ContinueCompare(id, initRequestId) => Continuing(ToU32(id), Some(ToU32(initRequestId)))
  }

  lemma MapOfSnoc(es: seq<Entry>, e: Entry)
    ensures MapOf(es + [e]) == MapOf(es)[e.0 := e.1]
  {
    assert (es + [e])[..|es|] == es;
  }

  lemma ReactRowValue(p: Progress, str: Str)
    requires p.AddValue?
    ensures React(p, OnString(str)) ==
            AfterAddValue(p.id, p.database, p.table, p.size, p.entries + [(p.key, str)])
  {
  }

  lemma ReactResultValue(p: Progress, str: Str)
    requires p.OkValue?
    ensures React(p, OnString(str)) == AfterOkValue(p.id, p.size, p.entries + [(p.key, str)])
  {
  }

  lemma ReactRowKey(p: Progress, str: Str)
    requires p.AddKey?
    ensures React(p, OnString(str)) == Accept(AddValue(p.id, p.database, p.table, p.size, p.entries, str))
  {
  }

  ghost predicate IsMessage(o: object?) {
    o == null || o is RequestGet || o is RequestAdd || o is RequestAddContinue || o is ResponseGetOk ||
    o is ResponseAddTraverse
  }

  class ObjectParser {
    var currentKey: Str
    var elements: int
    var listener: ObjectListener
    var state: ParserState
    var currentObject: object?
    var currentRequestId: nat

    /** What has been taken in of the message at hand; the fields above are its image. */
    ghost var progress: Progress

    ghost function Held(): set<object>
      reads this
    {
      if currentObject == null then {} else {currentObject}
    }

    /** The object of a `RequestGet` in the making; its strings count once they are set. */
    ghost function GetView(database: bool, table: bool): View
      reads this, Held()
    {
      if currentObject is RequestGet then
        var o := currentObject as RequestGet;
        Getting(currentRequestId,
                if database then Some(o.database) else None, if table then Some(o.table) else None)
      else Miscast
    }

    ghost function ResultView(key: bool): View
      reads this, Held()
    {
      if currentObject is ResponseGetOk then
        Result(currentRequestId, (currentObject as ResponseGetOk).values, elements,
               if key then Some(currentKey) else None)
      else Miscast
    }

    ghost function AddView(database: bool, table: bool, inMap: bool, key: bool): View
      reads this, Held()
    {
      if currentObject is RequestAdd then
        var o := currentObject as RequestAdd;
        Adding(currentRequestId,
               if database then Some(o.database) else None, if table then Some(o.table) else None,
               o.row, if inMap then Some(elements) else None, if key then Some(currentKey) else None)
      else Miscast
    }

    ghost function TraverseView(initRequestId: bool): View
      reads this, Held()
    {
      if currentObject is ResponseAddTraverse then
        Traversing(currentRequestId,
                   if initRequestId then Some((currentObject as ResponseAddTraverse).initRequestId) else None)
      else Miscast
    }

    ghost function ContinueView(initRequestId: bool): View
      reads this, Held()
    {
      if currentObject is RequestAddContinue then
        Continuing(currentRequestId,
                   if initRequestId then Some((currentObject as RequestAddContinue).initRequestId) else None)
      else Miscast
    }

    ghost function Snapshot(): View
      reads this, Held()
    {
      match state
      case REQUEST_WRAPPER_BODY => Id(currentRequestId)
      case RESPONSE_WRAPPER_BODY => Id(currentRequestId)
      case RESPONSE_GET_EMPTY_MAP => Id(currentRequestId)
      case RESPONSE_GET_OK_MAP => Id(currentRequestId)
      case RESPONSE_ADD_OK_MAP => Id(currentRequestId)
      case REQUEST_GET_ARRAY => GetView(false, false)
      case REQUEST_GET_DATABASE => GetView(false, false)
      case REQUEST_GET_TABLE => GetView(true, false)
      case REQUEST_GET_PK => GetView(true, true)
      case RESPONSE_GET_OK_MAP_KEY => ResultView(false)
      case RESPONSE_GET_OK_MAP_VALUE => ResultView(true)
      case REQUEST_ADD_ARRAY => AddView(false, false, false, false)
      case REQUEST_ADD_DATABASE => AddView(false, false, false, false)
      case REQUEST_ADD_TABLE => AddView(true, false, false, false)
      case REQUEST_ADD_ROW_MAP => AddView(true, true, false, false)
      case REQUEST_ADD_ROW_MAP_KEY => AddView(true, true, true, false)
      case REQUEST_ADD_ROW_MAP_VALUE => AddView(true, true, true, true)
      case RESPONSE_ADD_TRAVERSE_ARRAY => TraverseView(false)
      case RESPONSE_ADD_TRAVERSE_INIT_REQUEST_ID => TraverseView(false)
      case RESPONSE_ADD_TRAVERSE_CIPHERTEXT => TraverseView(true)
      case REQUEST_ADD_CONTINUE_ARRAY => ContinueView(false)
      case REQUEST_ADD_CONTINUE_INIT_REQUEST_ID => ContinueView(false)
      case REQUEST_ADD_CONTINUE_COMPARE_RESULT => ContinueView(true)
      case _ => Nothing
    }

    lemma ResultSnapshot()
      ensures state == RESPONSE_GET_OK_MAP_KEY ==> Snapshot() == ResultView(false)
      ensures state == RESPONSE_GET_OK_MAP_VALUE ==> Snapshot() == ResultView(true)
    {
    }

    lemma AddSnapshot()
      ensures state == REQUEST_ADD_ARRAY ==> Snapshot() == AddView(false, false, false, false)
      ensures state == REQUEST_ADD_DATABASE ==> Snapshot() == AddView(false, false, false, false)
      ensures state == REQUEST_ADD_TABLE ==> Snapshot() == AddView(true, false, false, false)
      ensures state == REQUEST_ADD_ROW_MAP ==> Snapshot() == AddView(true, true, false, false)
      ensures state == REQUEST_ADD_ROW_MAP_KEY ==> Snapshot() == AddView(true, true, true, false)
    {
    }

    lemma InitSnapshot()
      requires state == INIT
      ensures Snapshot() == Nothing
    {
    }

    lemma ResultMapSnapshot()
      requires state == RESPONSE_GET_OK_MAP
      ensures Snapshot() == View.Id(currentRequestId)
    {
    }

    lemma ContinueIdSnapshot()
      requires state == REQUEST_ADD_CONTINUE_INIT_REQUEST_ID
      ensures Snapshot() == ContinueView(false)
    {
    }

    lemma ContinueCompareSnapshot()
      requires state == REQUEST_ADD_CONTINUE_COMPARE_RESULT
      ensures Snapshot() == ContinueView(true)
    {
    }

    lemma TraverseIdSnapshot()
      requires state == RESPONSE_ADD_TRAVERSE_INIT_REQUEST_ID
      ensures Snapshot() == TraverseView(false)
    {
    }

    lemma TraverseDataSnapshot()
      requires state == RESPONSE_ADD_TRAVERSE_CIPHERTEXT
      ensures Snapshot() == TraverseView(true)
    {
    }

    lemma RowKeySnapshot()
      requires state == REQUEST_ADD_ROW_MAP_KEY
      ensures Snapshot() == AddView(true, true, true, false)
    {
    }

    lemma RowValueSnapshot()
      requires state == REQUEST_ADD_ROW_MAP_VALUE
      ensures Snapshot() == AddView(true, true, true, true)
    {
    }

    /** The fields say what the progress says; no handler is about to cast wrongly. */
    ghost predicate Valid()
      reads this, Held()
    {
      state == StateOf(progress) && Snapshot() == Expected(progress) && IsMessage(currentObject)
    }

    constructor (listener: ObjectListener)
      ensures Valid() && progress == Init && this.listener == listener && currentObject == null
    {
      this.listener := listener;
      currentKey, elements, state, currentObject, currentRequestId := [], 0, INIT, null, 0;
      progress := Init;
    }

    /** One event has been handled as the grammar says. */
    twostate predicate Handled(e: Event)
      reads this, listener, Held()
    {
      && Valid()
      && listener == old(listener)
      && fresh(Held() - old(Held()))
      && progress == Target(old(progress), React(old(progress), e))
      && listener.log == old(listener.log) + CallsOf(React(old(progress), e))
    }

    method Fail(ghost e: Event)
      requires Valid() && React(progress, e) == Reject
      modifies listener
      ensures Handled(e)
    {
      listener.Record(Failed);
    }

    // ---- Integers ----

    method TakeRequestId(value: int, next: ParserState)
      requires Valid()
      requires (state == REQUEST_WRAPPER_ID && next == REQUEST_WRAPPER_BODY) ||
               (state == RESPONSE_WRAPPER_ID && next == RESPONSE_WRAPPER_BODY)
      modifies this
      ensures Handled(Event.OnInteger(value))
    {
      currentRequestId := ToU32(value);
      progress := if state == REQUEST_WRAPPER_ID then RequestBody(value) else ResponseBody(value);
      state := next;
    }

    method TakePk(value: int)
      requires Valid() && state == REQUEST_GET_PK
      modifies this, listener, Held()
      ensures Handled(Event.OnInteger(value))
    {
      var request := currentObject as RequestGet;
      request.pk := ToU64(value);
      state := INIT;
      listener.Record(Dispatch(currentRequestId, GetRequest(request.database, request.table, request.pk)));
      progress := Init;
    }

    method TakeTraverseId(value: int)
      requires Valid() && state == RESPONSE_ADD_TRAVERSE_INIT_REQUEST_ID
      modifies this, Held()
      ensures Handled(Event.OnInteger(value))
    {
      hide Snapshot;
      TraverseIdSnapshot();
      (currentObject as ResponseAddTraverse).initRequestId := ToU32(value);
      state := RESPONSE_ADD_TRAVERSE_CIPHERTEXT;
      progress := TraverseData(progress.id, value);
      TraverseDataSnapshot();
    }

    method TakeContinueId(value: int)
      requires Valid() && state == REQUEST_ADD_CONTINUE_INIT_REQUEST_ID
      modifies this, Held()
      ensures Handled(Event.OnInteger(value))
    {
      hide Snapshot;
      ContinueIdSnapshot();
      (currentObject as RequestAddContinue).initRequestId := ToU32(value);
      state := REQUEST_ADD_CONTINUE_COMPARE_RESULT;
      progress := ContinueCompare(progress.id, value);
      ContinueCompareSnapshot();
    }

    method TakeCompareResult(value: int)
      requires Valid() && state == REQUEST_ADD_CONTINUE_COMPARE_RESULT
      modifies this, listener, Held()
      ensures Handled(Event.OnInteger(value))
    {
      var request := currentObject as RequestAddContinue;
      request.compareResult := value;
      listener.Record(Dispatch(currentRequestId, ContinueRequest(request.initRequestId, request.compareResult)));
      state := INIT;
      progress := Init;
    }

    method OnInteger(value: int)
      requires Valid()
      modifies this, listener, Held()
      ensures Handled(Event.OnInteger(value))
    {
      hide Handled, Snapshot, Expected;
      if state == REQUEST_WRAPPER_ID {
        TakeRequestId(value, REQUEST_WRAPPER_BODY);
      } else if state == REQUEST_GET_PK {
        TakePk(value);
      } else if state == RESPONSE_WRAPPER_ID {
        TakeRequestId(value, RESPONSE_WRAPPER_BODY);
      } else if state == RESPONSE_ADD_TRAVERSE_INIT_REQUEST_ID {
        TakeTraverseId(value);
      } else if state == REQUEST_ADD_CONTINUE_INIT_REQUEST_ID {
        TakeContinueId(value);
      } else if state == REQUEST_ADD_CONTINUE_COMPARE_RESULT {
        TakeCompareResult(value);
      } else {
        Fail(Event.OnInteger(value));
      }
    }

    // ---- Byte strings ----

    method TakeCiphertext(data: Str)
      requires Valid() && state == RESPONSE_ADD_TRAVERSE_CIPHERTEXT
      modifies this, listener, Held()
      ensures Handled(Event.OnBytes(data))
    {
      var response := currentObject as ResponseAddTraverse;
      response.ciphertext := data;
      listener.Record(Dispatch(currentRequestId, TraverseResponse(response.initRequestId, response.ciphertext)));
      state := INIT;
      progress := Init;
    }

    method OnBytes(data: Str)
      requires Valid()
      modifies this, listener, Held()
      ensures Handled(Event.OnBytes(data))
    {
      hide Handled, Snapshot, Expected;
      if state == RESPONSE_ADD_TRAVERSE_CIPHERTEXT {
        TakeCiphertext(data);
      } else {
        Fail(Event.OnBytes(data));
      }
    }

    // ---- Text strings ----

    method TakeGetDatabase(str: Str)
      requires Valid() && state == REQUEST_GET_DATABASE
      modifies this, Held()
      ensures Handled(Event.OnString(str))
    {
      (currentObject as RequestGet).database := str;
      state := REQUEST_GET_TABLE;
      progress := GetTable(progress.id, str);
    }

    method TakeGetTable(str: Str)
      requires Valid() && state == REQUEST_GET_TABLE
      modifies this, Held()
      ensures Handled(Event.OnString(str))
    {
      (currentObject as RequestGet).table := str;
      state := REQUEST_GET_PK;
      progress := GetPk(progress.id, progress.database, str);
    }

    method TakeResultKey(str: Str)
      requires Valid() && state == RESPONSE_GET_OK_MAP_KEY
      modifies this
      ensures Handled(Event.OnString(str))
    {
      hide Snapshot;
      ResultSnapshot();
      currentKey := str;
      state := RESPONSE_GET_OK_MAP_VALUE;
      progress := OkValue(progress.id, progress.size, progress.entries, str);
      ResultSnapshot();
    }

    /** The value goes into the result; it was the last one announced when `elements` comes to 0. */
    method TakeLastResultValue(str: Str)
      requires Valid() && state == RESPONSE_GET_OK_MAP_VALUE && elements == 1
      modifies this, listener, Held()
      ensures Handled(Event.OnString(str))
    {
      hide MapOf, React, Snapshot;
      ResultSnapshot();
      ReactResultValue(progress, str);
      var response := currentObject as ResponseGetOk;
      MapOfSnoc(progress.entries, (currentKey, str));
      response.SetValue(currentKey, str);
      elements := elements - 1;
      listener.Record(Dispatch(currentRequestId, GetOkResponse(response.values)));
      state := INIT;
      progress := Init;
      InitSnapshot();
    }

    method TakeInnerResultValue(str: Str)
      requires Valid() && state == RESPONSE_GET_OK_MAP_VALUE && elements != 1
      modifies this, Held()
      ensures Handled(Event.OnString(str))
    {
      hide MapOf, Snapshot, React;
      ResultSnapshot();
      ReactResultValue(progress, str);
      var response := currentObject as ResponseGetOk;
      MapOfSnoc(progress.entries, (currentKey, str));
      response.SetValue(currentKey, str);
      elements := elements - 1;
      state := RESPONSE_GET_OK_MAP_KEY;
      progress := OkKey(progress.id, progress.size, progress.entries + [(currentKey, str)]);
      ResultSnapshot();
    }

    method TakeAddDatabase(str: Str)
      requires Valid() && state == REQUEST_ADD_DATABASE
      modifies this, Held()
      ensures Handled(Event.OnString(str))
    {
      hide Snapshot;
      AddSnapshot();
      (currentObject as RequestAdd).database := str;
      state := REQUEST_ADD_TABLE;
      progress := AddTable(progress.id, str);
      AddSnapshot();
    }

    method TakeAddTable(str: Str)
      requires Valid() && state == REQUEST_ADD_TABLE
      modifies this, Held()
      ensures Handled(Event.OnString(str))
    {
      hide Snapshot;
      AddSnapshot();
      (currentObject as RequestAdd).table := str;
      state := REQUEST_ADD_ROW_MAP;
      progress := AddRow(progress.id, progress.database, str);
      AddSnapshot();
    }

    method TakeRowKey(str: Str)
      requires Valid() && state == REQUEST_ADD_ROW_MAP_KEY
      modifies this
      ensures Handled(Event.OnString(str))
    {
      hide React, Snapshot;
      RowKeySnapshot();
      ReactRowKey(progress, str);
      currentKey := str;
      state := REQUEST_ADD_ROW_MAP_VALUE;
      progress := AddValue(progress.id, progress.database, progress.table, progress.size, progress.entries, str);
      RowValueSnapshot();
    }

    /** The value goes into the row; it was the last one announced when `elements` comes to 0. */
    method TakeLastRowValue(str: Str)
      requires Valid() && state == REQUEST_ADD_ROW_MAP_VALUE && elements == 1
      modifies this, listener, Held()
      ensures Handled(Event.OnString(str))
    {
      hide MapOf, React, Snapshot;
      RowValueSnapshot();
      ReactRowValue(progress, str);
      var request := currentObject as RequestAdd;
      MapOfSnoc(progress.entries, (currentKey, str));
      request.row := request.row[currentKey := str];
      elements := elements - 1;
      listener.Record(Dispatch(currentRequestId, AddRequest(request.database, request.table, request.row)));
      state := INIT;
      progress := Init;
      InitSnapshot();
    }

    method TakeInnerRowValue(str: Str)
      requires Valid() && state == REQUEST_ADD_ROW_MAP_VALUE && elements != 1
      modifies this, Held()
      ensures Handled(Event.OnString(str))
    {
      hide MapOf, React, Snapshot;
      RowValueSnapshot();
      ReactRowValue(progress, str);
      var request := currentObject as RequestAdd;
      MapOfSnoc(progress.entries, (currentKey, str));
      request.row := request.row[currentKey := str];
      elements := elements - 1;
      state := REQUEST_ADD_ROW_MAP_KEY;
      progress := AddKey(progress.id, progress.database, progress.table, progress.size,
                         progress.entries + [(currentKey, str)]);
      RowKeySnapshot();
    }

    method OnString(str: Str)
      requires Valid()
      modifies this, listener, Held()
      ensures Handled(Event.OnString(str))
    {
      hide Handled, Snapshot, Expected;
      if state == REQUEST_GET_DATABASE {
        TakeGetDatabase(str);
      } else if state == REQUEST_GET_TABLE {
        TakeGetTable(str);
      } else if state == RESPONSE_GET_OK_MAP_KEY {
        TakeResultKey(str);
      } else if state == RESPONSE_GET_OK_MAP_VALUE {
        if elements == 1 {
          TakeLastResultValue(str);
        } else {
          TakeInnerResultValue(str);
        }
      } else if state == REQUEST_ADD_DATABASE {
        TakeAddDatabase(str);
      } else if state == REQUEST_ADD_TABLE {
        TakeAddTable(str);
      } else if state == REQUEST_ADD_ROW_MAP_KEY {
        TakeRowKey(str);
      } else if state == REQUEST_ADD_ROW_MAP_VALUE {
        if elements == 1 {
          TakeLastRowValue(str);
        } else {
          TakeInnerRowValue(str);
        }
      } else {
        Fail(Event.OnString(str));
      }
    }

    // ---- Arrays ----

    /** An array of the expected size; nothing but the state changes. */
    method EnterWrapper()
      requires Valid() && (state == REQUEST_WRAPPER_ARRAY || state == RESPONSE_WRAPPER_ARRAY)
      modifies this
      ensures Handled(Event.OnArray(2))
    {
      progress := if state == REQUEST_WRAPPER_ARRAY then RequestId else ResponseId;
      state := if state == REQUEST_WRAPPER_ARRAY then REQUEST_WRAPPER_ID else RESPONSE_WRAPPER_ID;
    }

    method EnterGet()
      requires Valid() && state == REQUEST_GET_ARRAY
      modifies this
      ensures Handled(Event.OnArray(3))
    {
      state := REQUEST_GET_DATABASE;
      progress := GetDatabase(progress.id);
    }

    method EnterAdd()
      requires Valid() && state == REQUEST_ADD_ARRAY
      modifies this
      ensures Handled(Event.OnArray(3))
    {
      state := REQUEST_ADD_DATABASE;
      progress := AddDatabase(progress.id);
    }

    method EnterTraverse()
      requires Valid() && state == RESPONSE_ADD_TRAVERSE_ARRAY
      modifies this
      ensures Handled(Event.OnArray(2))
    {
      state := RESPONSE_ADD_TRAVERSE_INIT_REQUEST_ID;
      progress := TraverseId(progress.id);
    }

    method EnterContinue()
      requires Valid() && state == REQUEST_ADD_CONTINUE_ARRAY
      modifies this
      ensures Handled(Event.OnArray(2))
    {
      state := REQUEST_ADD_CONTINUE_INIT_REQUEST_ID;
      progress := ContinueId(progress.id);
    }

    method OnArray(size: int)
      requires Valid()
      modifies this, listener
      ensures Handled(Event.OnArray(size))
    {
      hide Handled, Snapshot, Expected;
      if state == REQUEST_WRAPPER_ARRAY {
        if size == 2 {
          EnterWrapper();
        } else {
          Fail(Event.OnArray(size));
        }
      } else if state == REQUEST_GET_ARRAY {
        if size == 3 {
          EnterGet();
        } else {
          Fail(Event.OnArray(size));
        }
      } else if state == RESPONSE_WRAPPER_ARRAY {
        if size == 2 {
          EnterWrapper();
        } else {
          Fail(Event.OnArray(size));
        }
      } else if state == REQUEST_ADD_ARRAY {
        if size == 3 {
          EnterAdd();
        } else {
          Fail(Event.OnArray(size));
        }
      } else if state == RESPONSE_ADD_TRAVERSE_ARRAY {
        if size == 2 {
          EnterTraverse();
        } else {
          Fail(Event.OnArray(size));
        }
      } else if state == REQUEST_ADD_CONTINUE_ARRAY {
        if size == 2 {
          EnterContinue();
        } else {
          Fail(Event.OnArray(size));
        }
      } else {
        Fail(Event.OnArray(size));
      }
    }

    // ---- Maps ----

    method TakeEmptyMap(message: Message)
      requires Valid()
      requires (state == RESPONSE_GET_EMPTY_MAP && message == GetEmptyResponse) ||
               (state == RESPONSE_ADD_OK_MAP && message == AddOkResponse)
      modifies this, listener
      ensures Handled(Event.OnMap(0))
    {
      listener.Record(Dispatch(currentRequestId, message));
      state := INIT;
      progress := Init;
    }

    method EnterResult(size: int)
      requires Valid() && state == RESPONSE_GET_OK_MAP
      modifies this
      ensures Handled(Event.OnMap(size))
    {
      hide Snapshot;
      ResultMapSnapshot();
      elements := size;
      var response := new ResponseGetOk();
      currentObject := response;
      state := RESPONSE_GET_OK_MAP_KEY;
      progress := OkKey(progress.id, size, []);
      ResultSnapshot();
    }

    method EnterRow(size: int)
      requires Valid() && state == REQUEST_ADD_ROW_MAP
      modifies this
      ensures Handled(Event.OnMap(size))
    {
      hide Snapshot;
      AddSnapshot();
      elements := size;
      state := REQUEST_ADD_ROW_MAP_KEY;
      progress := AddKey(progress.id, progress.database, progress.table, size, []);
      AddSnapshot();
    }

    method OnMap(size: int)
      requires Valid()
      modifies this, listener
      ensures Handled(Event.OnMap(size))
    {
      hide Handled, Snapshot, Expected;
      if state == RESPONSE_GET_EMPTY_MAP {
        if size == 0 {
          TakeEmptyMap(GetEmptyResponse);
        } else {
          Fail(Event.OnMap(size));
        }
      } else if state == RESPONSE_GET_OK_MAP {
        EnterResult(size);
      } else if state == REQUEST_ADD_ROW_MAP {
        EnterRow(size);
      } else if state == RESPONSE_ADD_OK_MAP {
        if size == 0 {
          TakeEmptyMap(AddOkResponse);
        } else {
          Fail(Event.OnMap(size));
        }
      } else {
        Fail(Event.OnMap(size));
      }
    }

    // ---- Tags ----

    /** A tag that allocates nothing. */
    method EnterTag(tag: nat, next: ParserState)
      requires Valid()
      requires state == INIT ||
               next == RESPONSE_GET_EMPTY_MAP || next == RESPONSE_GET_OK_MAP || next == RESPONSE_ADD_OK_MAP
      requires React(progress, Event.OnTag(tag)).Accept? && StateOf(React(progress, Event.OnTag(tag)).next) == next
      modifies this
      ensures Handled(Event.OnTag(tag))
    {
      progress := React(progress, Event.OnTag(tag)).next;
      state := next;
    }

    method StartGet()
      requires Valid() && state == REQUEST_WRAPPER_BODY
      modifies this
      ensures Handled(Event.OnTag(TAG_REQUEST_GET))
    {
      state := REQUEST_GET_ARRAY;
      var request := new RequestGet();
      currentObject := request;
      progress := GetArray(progress.id);
    }

    method StartAdd()
      requires Valid() && state == REQUEST_WRAPPER_BODY
      modifies this
      ensures Handled(Event.OnTag(TAG_REQUEST_ADD))
    {
      state := REQUEST_ADD_ARRAY;
      var request := new RequestAdd();
      currentObject := request;
      progress := AddArray(progress.id);
    }

    method StartContinue()
      requires Valid() && state == REQUEST_WRAPPER_BODY
      modifies this
      ensures Handled(Event.OnTag(TAG_REQUEST_ADD_CONTINUE))
    {
      state := REQUEST_ADD_CONTINUE_ARRAY;
      var request := new RequestAddContinue();
      currentObject := request;
      progress := ContinueArray(progress.id);
    }

    method StartTraverse()
      requires Valid() && state == RESPONSE_WRAPPER_BODY
      modifies this
      ensures Handled(Event.OnTag(TAG_RESPONSE_ADD_TRAVERSE))
    {
      state := RESPONSE_ADD_TRAVERSE_ARRAY;
      var response := new ResponseAddTraverse();
      currentObject := response;
      progress := TraverseArray(progress.id);
    }

    method OnTag(tag: nat)
      requires Valid()
      modifies this, listener
      ensures Handled(Event.OnTag(tag))
    {
      hide Handled, Snapshot, Expected;
      if state == INIT {
        if tag == 1000 {
          EnterTag(tag, REQUEST_WRAPPER_ARRAY);
        } else if tag == 2000 {
          EnterTag(tag, RESPONSE_WRAPPER_ARRAY);
        } else {
          Fail(Event.OnTag(tag));
        }
      } else if state == REQUEST_WRAPPER_BODY {
        if tag == 1100 {
          StartGet();
        } else if tag == TAG_REQUEST_ADD {
          StartAdd();
        } else if tag == TAG_REQUEST_ADD_CONTINUE {
          StartContinue();
        } else {
          Fail(Event.OnTag(tag));
        }
      } else if state == RESPONSE_WRAPPER_BODY {
        if tag == 2101 {
          EnterTag(tag, RESPONSE_GET_EMPTY_MAP);
        } else if tag == 2100 {
          EnterTag(tag, RESPONSE_GET_OK_MAP);
        } else if tag == TAG_RESPONSE_ADD_OK {
          EnterTag(tag, RESPONSE_ADD_OK_MAP);
        } else if tag == TAG_RESPONSE_ADD_TRAVERSE {
          StartTraverse();
        } else {
          Fail(Event.OnTag(tag));
        }
      } else {
        Fail(Event.OnTag(tag));
      }
    }

    method OnSpecial(code: int)
      requires Valid()
      modifies listener
      ensures Handled(Event.OnSpecial(code))
    {
      Fail(Event.OnSpecial(code));
    }

    method OnError()
      requires Valid()
      modifies listener
      ensures Handled(Event.OnError)
    {
      Fail(Event.OnError);
    }

    method Reset()
      requires Valid()
      modifies this
      ensures Valid() && progress == Init && listener == old(listener) && Held() == old(Held())
    {
      state := INIT;
      progress := Init;
    }

    /** `ObjectParser::Run`: read the whole input, reporting what it says. */
    method Run(input: CborInput)
      requires Valid() && input.Valid() && Read(AtType, input.Remaining()).Stopped?
      modifies this, listener, Held(), input`offset
      ensures Valid() && listener == old(listener) && fresh(Held() - old(Held()))
      ensures progress == ParserAfter(Init, old(Read(AtType, input.Remaining())).events)
      ensures listener.log == old(listener.log) + Calls(Init, old(Read(AtType, input.Remaining())).events)
      ensures input.Valid() && input.Remaining() == old(Read(AtType, input.Remaining())).rest
    {
      hide Read, Calls, ParserAfter, Valid, CborInput.Remaining;
      Reset();
      var reader := new CborReader(input, this);
      reader.Run();
    }
  }

  // ---- The reader ----

  class CborInput {
    const data: array<byte>
    const size: nat
    var offset: nat

    ghost predicate Valid()
      reads this
    {
      offset <= size <= data.Length
    }

    /** The bytes not read yet; no other byte is ever looked at. */
    ghost function Remaining(): Str
      requires Valid()
      reads this, data
    {
      data[offset..size]
    }

    constructor (data: array<byte>, size: nat)
      requires size <= data.Length
      ensures Valid() && this.data == data && this.size == size && Remaining() == data[..size]
    {
      this.data, this.size, offset := data, size, 0;
    }

    predicate HasBytes(count: nat)
      requires Valid()
      reads this, data
      ensures HasBytes(count) <==> |Remaining()| >= count
    {
      size - offset >= count
    }

    method GetByte() returns (value: byte)
      requires Valid() && |Remaining()| >= 1
      modifies this`offset
      ensures Valid() && Remaining() == old(Remaining())[1..]
      ensures value == old(Remaining())[0] == BigEndian(old(Remaining())[..1])
    {
      BigEndianBound(Remaining()[..1]);
      value := data[offset];
      offset := offset + 1;
    }

    method GetShort() returns (value: nat)
      requires Valid() && |Remaining()| >= 2
      modifies this`offset
      ensures Valid() && Remaining() == old(Remaining())[2..]
      ensures value == BigEndian(old(Remaining())[..2]) < 65536
    {
      BigEndianBound(Remaining()[..2]);
      value := data[offset] as int * 256 + data[offset + 1];
      offset := offset + 2;
    }

    method GetInt() returns (value: nat)
      requires Valid() && |Remaining()| >= 4
      modifies this`offset
      ensures Valid() && Remaining() == old(Remaining())[4..]
      ensures value == BigEndian(old(Remaining())[..4]) < TWO_32
    {
      BigEndianBound(Remaining()[..4]);
      value := data[offset] as int * 0x100_0000 + data[offset + 1] as int * 65536 +
               data[offset + 2] as int * 256 + data[offset + 3];
      offset := offset + 4;
    }

    lemma BigEndianLong(s: Str)
      requires |s| == 8
      ensures BigEndian(s) == BigEndian(s[..4]) * TWO_32 + BigEndian(s[4..])
    {
      BigEndianBound(s[4..]);
      assert s[..7][..6] == s[..6] && s[..6][..5] == s[..5] && s[..5][..4] == s[..4];
      assert BigEndian(s) == BigEndian(s[..7]) * 256 + s[7];
      assert BigEndian(s[..7]) == BigEndian(s[..6]) * 256 + s[6];
      assert BigEndian(s[..6]) == BigEndian(s[..5]) * 256 + s[5];
      assert BigEndian(s[..5]) == BigEndian(s[..4]) * 256 + s[4];
    }

    method GetLong() returns (value: nat)
      requires Valid() && |Remaining()| >= 8
      modifies this`offset
      ensures Valid() && Remaining() == old(Remaining())[8..]
      ensures value == BigEndian(old(Remaining())[..8])
    {
      ghost var s := Remaining()[..8];
      BigEndianLong(s);
      assert s[..4] == Remaining()[..4] && s[4..] == Remaining()[4..][..4];
      var high := GetInt();
      var low := GetInt();
      value := high * TWO_32 + low;
    }

    method GetBytes(count: nat) returns (to: Str)
      requires Valid() && |Remaining()| >= count
      modifies this`offset
      ensures Valid() && Remaining() == old(Remaining())[count..]
      ensures to == old(Remaining())[..count]
    {
      to := data[offset..offset + count];
      offset := offset + count;
    }
  }

  datatype ReaderState =
    | STATE_TYPE
    | STATE_PINT
    | STATE_NINT
    | STATE_BYTES_SIZE
    | STATE_BYTES_DATA
    | STATE_STRING_SIZE
    | STATE_STRING_DATA
    | STATE_ARRAY
    | STATE_MAP
    | STATE_TAG
    | STATE_SPECIAL

  /** The state in which the argument of a major type is awaited. */
  function ArgumentState(major: Major): ReaderState {
    match major
    case 0 => STATE_PINT
    case 1 => STATE_NINT
    case 2 => STATE_BYTES_SIZE
    case 3 => STATE_STRING_SIZE
    case 4 => STATE_ARRAY
    case 5 => STATE_MAP
    case 6 => STATE_TAG
    case _ => STATE_SPECIAL
  }

  class CborReader {
    const input: CborInput
    const listener: ObjectParser
    var state: ReaderState
    var currentLength: nat

    constructor (input: CborInput, listener: ObjectParser)
      ensures this.input == input && this.listener == listener && View() == AtType
    {
      this.input, this.listener, state, currentLength := input, listener, STATE_TYPE, 0;
    }

    ghost function View(): Cursor
      reads this
    {
      match state
      case STATE_TYPE => AtType
      case STATE_PINT => AtArgument(0, currentLength)
      case STATE_NINT => AtArgument(1, currentLength)
      case STATE_BYTES_SIZE => AtArgument(2, currentLength)
      case STATE_BYTES_DATA => AtPayload(false, currentLength)
      case STATE_STRING_SIZE => AtArgument(3, currentLength)
      case STATE_STRING_DATA => AtPayload(true, currentLength)
      case STATE_ARRAY => AtArgument(4, currentLength)
      case STATE_MAP => AtArgument(5, currentLength)
      case STATE_TAG => AtArgument(6, currentLength)
      case STATE_SPECIAL => AtArgument(7, currentLength)
    }

    ghost predicate Valid()
      reads this, input, listener, listener.Held()
    {
      CursorOk(View()) && input.Valid() && listener.Valid()
    }

    ghost function NextTurn(): Turn
      requires Valid()
      reads this, input, input.data, listener, listener.Held()
    {
      TurnOf(View(), input.Remaining())
    }

    /** The reader is where the turn leads, and its events have been handled. */
    twostate predicate Took(t: Turn)
      requires old(Valid())
      reads this, input, input.data, listener, listener.listener, listener.Held()
    {
      && t.Go?
      && Valid()
      && View() == t.next
      && t.consumed <= |old(input.Remaining())|
      && input.Remaining() == old(input.Remaining())[t.consumed..]
      && Heard(t.events)
    }

    /** The parser has handled the events and its objects are its own. */
    twostate predicate Heard(es: seq<Event>)
      reads listener, listener.listener, listener.Held()
    {
      && listener.Valid()
      && listener.listener == old(listener.listener)
      && fresh(listener.Held() - old(listener.Held()))
      && listener.progress == ParserAfter(old(listener.progress), es)
      && listener.listener.log == old(listener.listener.log) + Calls(old(listener.progress), es)
    }

    /** The parser's current object is none of the reader's own. */
    lemma Apart()
      requires listener.Valid()
      ensures this !in listener.Held() && input !in listener.Held() && input.data !in listener.Held()
      ensures listener !in listener.Held() && listener.listener !in listener.Held()
    {
    }

    lemma OneEvent(p: Progress, e: Event)
      ensures ParserAfter(p, [e]) == Target(p, React(p, e))
      ensures Calls(p, [e]) == CallsOf(React(p, e))
    {
      hide React;
      CallsOfOne(p, e);
      assert [e][1..] == [];
      assert ParserAfter(Target(p, React(p, e)), []) == Target(p, React(p, e));
    }

    lemma NoEvent(p: Progress)
      ensures ParserAfter(p, []) == p && Calls(p, []) == []
    {
    }

    /** One call of the listener. */
    method Tell(e: Event)
      requires listener.Valid()
      modifies listener, listener.listener, listener.Held()
      ensures Heard([e])
    {
      hide React, listener.Valid;
      OneEvent(listener.progress, e);
      match e
      case OnInteger(value) => listener.OnInteger(value);
      case OnBytes(data) => listener.OnBytes(data);
      case OnString(str) => listener.OnString(str);
      case OnArray(size) => listener.OnArray(size);
      case OnMap(size) => listener.OnMap(size);
      case OnTag(tag) => listener.OnTag(tag);
      case OnSpecial(code) => listener.OnSpecial(code);
      case OnError => listener.OnError();
    }

    // ---- An initial byte ----

    /** The argument is in the initial byte. */
    method SmallArgument(majorType: Major, minorType: nat)
      requires Valid() && state == STATE_TYPE && minorType < 24
      modifies this, listener, listener.listener, listener.Held()
      ensures Valid()
      ensures var t := ArgumentTurn(majorType, minorType, 1); t.Go? && View() == t.next && Heard(t.events)
    {
      hide ParserAfter, Calls, ObjectParser.Valid;
      Apart();
      NoEvent(listener.progress);
      match majorType
      case 0 => Tell(OnInteger(minorType));
      case 1 => Tell(OnInteger(-(minorType as int)));
      case 2 =>
        state := STATE_BYTES_DATA;
        currentLength := minorType;
      case 3 =>
        state := STATE_STRING_DATA;
        currentLength := minorType;
      case 4 => Tell(OnArray(minorType));
      case 5 => Tell(OnMap(minorType));
      case 6 => Tell(OnTag(minorType));
      case 7 => Tell(OnSpecial(minorType));
    }

    /** The argument follows in 1, 2, 4 or 8 bytes, or the head is reserved. */
    method BeginArgument(initial: byte, pending: ReaderState)
      requires Valid() && state == STATE_TYPE
      requires initial % 32 >= 24 && pending == ArgumentState(initial / 32)
      modifies this, listener, listener.listener, listener.Held()
      ensures Valid()
      ensures var t := TypeTurn(initial); t.Go? && View() == t.next && Heard(t.events)
    {
      hide ParserAfter, Calls, ObjectParser.Valid;
      Apart();
      NoEvent(listener.progress);
      var minorType := initial % 32;
      if minorType == 24 {
        currentLength := 1;
        state := pending;
      } else if minorType == 25 {
        currentLength := 2;
        state := pending;
      } else if minorType == 26 {
        currentLength := 4;
        state := pending;
      } else if minorType == 27 {
        currentLength := 8;
        state := pending;
      } else {
        Tell(Event.OnError);
      }
    }

    method StepType()
      requires Valid() && state == STATE_TYPE && input.HasBytes(1) && NextTurn() != Crash
      modifies this, input`offset, listener, listener.listener, listener.Held()
      ensures Took(old(NextTurn()))
    {
      hide ParserAfter, Calls, ObjectParser.Valid;
      Apart();
      var initial := input.GetByte();
      var majorType, minorType := initial / 32, initial % 32;
      if minorType < 24 {
        SmallArgument(majorType, minorType);
      } else {
        BeginArgument(initial, ArgumentState(majorType));
      }
    }

    // ---- An argument ----

    /** The turn on an argument that has all its bytes. */
    lemma ArgumentTurns(major: Major)
      requires Valid() && View() == AtArgument(major, currentLength) && input.HasBytes(currentLength)
      ensures currentLength <= |input.Remaining()|
      ensures currentLength == 8 ==> NextTurn() == LongTurn(major)
      ensures currentLength != 8 ==>
                && BigEndian(input.Remaining()[..currentLength]) < TWO_32
                && NextTurn() == ArgumentTurn(major, BigEndian(input.Remaining()[..currentLength]), currentLength)
    {
      hide TurnOf, BigEndian;
      if currentLength == 8 {
        LongTurns(major, input.Remaining());
      } else {
        NumberTurn(major, currentLength, input.Remaining());
      }
    }

    method StepPositive()
      requires Valid() && state == STATE_PINT && input.HasBytes(currentLength)
      modifies this, input`offset, listener, listener.listener, listener.Held()
      ensures Took(old(NextTurn()))
    {
      hide ParserAfter, Calls, ObjectParser.Valid, BigEndian, CborInput.Remaining, TurnOf;
      ArgumentTurns(0);
      Apart();
      NoEvent(listener.progress);
      if currentLength == 1 {
        var value := input.GetByte();
        state := STATE_TYPE;
        Tell(OnInteger(value));
      } else if currentLength == 2 {
        var value := input.GetShort();
        state := STATE_TYPE;
        Tell(OnInteger(value));
      } else if currentLength == 4 {
        var value := input.GetInt();
        state := STATE_TYPE;
        Tell(OnInteger(ToI32(value)));
      } else {
        var _ := input.GetLong();
        state := STATE_TYPE;
      }
    }

    method StepNegative()
      requires Valid() && state == STATE_NINT && input.HasBytes(currentLength) && NextTurn() != Crash
      modifies this, input`offset, listener, listener.listener, listener.Held()
      ensures Took(old(NextTurn()))
    {
      hide ParserAfter, Calls, ObjectParser.Valid, BigEndian, CborInput.Remaining, TurnOf;
      ArgumentTurns(1);
      Apart();
      NoEvent(listener.progress);
      if currentLength == 1 {
        var value := input.GetByte();
        state := STATE_TYPE;
        Tell(OnInteger(-(value as int)));
      } else if currentLength == 2 {
        var value := input.GetShort();
        state := STATE_TYPE;
        Tell(OnInteger(-(value as int)));
      } else if currentLength == 4 {
        var value := input.GetInt();
        state := STATE_TYPE;
        Tell(OnInteger(-ToI32(value)));
      }
    }

    /** The length of a byte or text string. */
    method StepSize(payload: ReaderState)
      requires Valid() && input.HasBytes(currentLength) && NextTurn() != Crash
      requires (state == STATE_BYTES_SIZE && payload == STATE_BYTES_DATA) ||
               (state == STATE_STRING_SIZE && payload == STATE_STRING_DATA)
      modifies this, input`offset, listener, listener.listener, listener.Held()
      ensures Took(old(NextTurn()))
    {
      hide ParserAfter, Calls, ObjectParser.Valid, BigEndian, CborInput.Remaining;
      Apart();
      NoEvent(listener.progress);
      if currentLength == 1 {
        var value := input.GetByte();
        currentLength := value;
      } else if currentLength == 2 {
        var value := input.GetShort();
        currentLength := value;
      } else if currentLength == 4 {
        var value := input.GetInt();
        currentLength := value;
      } else {
        var _ := input.GetLong();
        currentLength := 123;
      }
      state := payload;
    }

    method StepArray()
      requires Valid() && state == STATE_ARRAY && input.HasBytes(currentLength)
      modifies this, input`offset, listener, listener.listener, listener.Held()
      ensures Took(old(NextTurn()))
    {
      hide ParserAfter, Calls, ObjectParser.Valid, BigEndian, CborInput.Remaining, TurnOf;
      ArgumentTurns(4);
      Apart();
      NoEvent(listener.progress);
      var width := currentLength;
      state := STATE_TYPE;
      if width == 1 {
        var value := input.GetByte();
        Tell(OnArray(value));
      } else if width == 2 {
        var value := input.GetShort();
        currentLength := value;
        Tell(OnArray(value));
      } else if width == 4 {
        var value := input.GetInt();
        Tell(OnArray(ToI32(value)));
      }
    }

    method StepMap()
      requires Valid() && state == STATE_MAP && input.HasBytes(currentLength)
      modifies this, input`offset, listener, listener.listener, listener.Held()
      ensures Took(old(NextTurn()))
    {
      hide ParserAfter, Calls, ObjectParser.Valid, BigEndian, CborInput.Remaining, TurnOf;
      ArgumentTurns(5);
      Apart();
      NoEvent(listener.progress);
      var width := currentLength;
      state := STATE_TYPE;
      if width == 1 {
        var value := input.GetByte();
        Tell(OnMap(value));
      } else if width == 2 {
        var value := input.GetShort();
        currentLength := value;
        Tell(OnMap(value));
      } else if width == 4 {
        var value := input.GetInt();
        Tell(OnMap(ToI32(value)));
      }
    }

    method StepTag()
      requires Valid() && state == STATE_TAG && input.HasBytes(currentLength)
      modifies this, input`offset, listener, listener.listener, listener.Held()
      ensures Took(old(NextTurn()))
    {
      hide ParserAfter, Calls, ObjectParser.Valid, BigEndian, CborInput.Remaining, TurnOf;
      ArgumentTurns(6);
      Apart();
      NoEvent(listener.progress);
      if currentLength == 1 {
        var value := input.GetByte();
        state := STATE_TYPE;
        Tell(OnTag(value));
      } else if currentLength == 2 {
        var value := input.GetShort();
        state := STATE_TYPE;
        Tell(OnTag(value));
      } else if currentLength == 4 {
        var value := input.GetInt();
        state := STATE_TYPE;
        Tell(OnTag(value));
      } else {
        var _ := input.GetLong();
        state := STATE_TYPE;
      }
    }

    method StepSpecial()
      requires Valid() && state == STATE_SPECIAL && input.HasBytes(currentLength)
      modifies this, input`offset, listener, listener.listener, listener.Held()
      ensures Took(old(NextTurn()))
    {
      hide ParserAfter, Calls, ObjectParser.Valid, BigEndian, CborInput.Remaining, TurnOf;
      ArgumentTurns(7);
      Apart();
      NoEvent(listener.progress);
      if currentLength == 1 {
        var value := input.GetByte();
        state := STATE_TYPE;
        Tell(OnSpecial(value));
      } else if currentLength == 2 {
        var value := input.GetShort();
        state := STATE_TYPE;
        Tell(OnSpecial(value));
      } else if currentLength == 4 {
        var value := input.GetInt();
        state := STATE_TYPE;
        Tell(OnSpecial(ToI32(value)));
      } else {
        var _ := input.GetLong();
        state := STATE_TYPE;
      }
    }

    // ---- A payload ----

    method StepBytes()
      requires Valid() && state == STATE_BYTES_DATA && input.HasBytes(currentLength)
      modifies this, input`offset, listener, listener.listener, listener.Held()
      ensures Took(old(NextTurn()))
    {
      hide ParserAfter, Calls, ObjectParser.Valid, TurnOf;
      Apart();
      PayloadTurn(false, currentLength, input.Remaining());
      var data := input.GetBytes(currentLength);
      state := STATE_TYPE;
      Tell(OnBytes(data));
    }

    method StepString()
      requires Valid() && state == STATE_STRING_DATA && input.HasBytes(currentLength)
      modifies this, input`offset, listener, listener.listener, listener.Held()
      ensures Took(old(NextTurn()))
    {
      hide ParserAfter, Calls, ObjectParser.Valid, TurnOf;
      Apart();
      PayloadTurn(true, currentLength, input.Remaining());
      var data := input.GetBytes(currentLength);
      state := STATE_TYPE;
      Tell(OnString(data));
    }

    // ---- The loop ----

    /** One more turn of a reading that stops. */
    lemma TurnTaken(c: Cursor, s: Str)
      requires CursorOk(c) && Read(c, s).Stopped? && TurnOf(c, s) != Wait
      ensures var t := TurnOf(c, s);
              && t.Go? && !(t.next == c && t.consumed == 0)
              && CursorOk(t.next) && t.consumed <= |s|
              && Read(c, s) == Prepend(t.events, Read(t.next, s[t.consumed..]))
              && Read(t.next, s[t.consumed..]).Stopped?
              && (t.consumed > 0 || (t.next == AtType && c != AtType))
    {
    }

    lemma TurnAdds(goal: Reading, done: seq<Event>, c: Cursor, s: Str)
      requires CursorOk(c) && Read(c, s).Stopped? && TurnOf(c, s) != Wait
      requires goal == Prepend(done, Read(c, s))
      ensures var t := TurnOf(c, s);
              && t.Go? && CursorOk(t.next) && t.consumed <= |s|
              && Read(t.next, s[t.consumed..]).Stopped?
              && goal == Prepend(done + t.events, Read(t.next, s[t.consumed..]))
              && (t.consumed > 0 || (t.next == AtType && c != AtType))
    {
      hide Read, TurnOf, CursorOk;
      TurnTaken(c, s);
      var t := TurnOf(c, s);
      PrependPrepend(done, t.events, Read(t.next, s[t.consumed..]));
    }

    lemma ReadWaits(c: Cursor, s: Str)
      requires CursorOk(c) && TurnOf(c, s) == Wait
      ensures Read(c, s) == Stopped(c, s, [])
    {
    }

    lemma PrependLast(done: seq<Event>, c: Cursor, s: Str)
      ensures Prepend(done, Stopped(c, s, [])) == Stopped(c, s, done)
    {
      assert done + [] == done;
    }

    /** Waiting is what the state's test for enough bytes says. */
    lemma WaitMeans()
      requires Valid()
      ensures NextTurn() == Wait <==> !input.HasBytes(if state == STATE_TYPE then 1 else currentLength)
    {
    }

    /** One pass through the body of the loop in a state that has its bytes. */
    method Step()
      requires Valid() && NextTurn() != Wait && NextTurn() != Crash
      modifies this, input`offset, listener, listener.listener, listener.Held()
      ensures Took(old(NextTurn()))
    {
      hide Took, TurnOf, ObjectParser.Valid;
      WaitMeans();
      match state
      case STATE_TYPE => StepType();
      case STATE_PINT => StepPositive();
      case STATE_NINT => StepNegative();
      case STATE_BYTES_SIZE => StepSize(STATE_BYTES_DATA);
      case STATE_BYTES_DATA => StepBytes();
      case STATE_STRING_SIZE => StepSize(STATE_STRING_DATA);
      case STATE_STRING_DATA => StepString();
      case STATE_ARRAY => StepArray();
      case STATE_MAP => StepMap();
      case STATE_TAG => StepTag();
      case STATE_SPECIAL => StepSpecial();
    }

    /** The bytes the present state needs. */
    function Needed(): nat
      reads this
    {
      if state == STATE_TYPE then 1 else currentLength
    }

    /** `CborReader::Run`: turn after turn until the input has too few bytes. Defined on the inputs
        on which the reading stops. */
    method Run()
      requires Valid() && Read(View(), input.Remaining()).Stopped?
      modifies this, input`offset, listener, listener.listener, listener.Held()
      ensures Valid()
      ensures var r := old(Read(View(), input.Remaining()));
              View() == r.cursor && input.Remaining() == r.rest && Heard(r.events)
    {
      hide Read, TurnOf, ParserAfter, Calls, ObjectParser.Valid;
      ghost var goal := Read(View(), input.Remaining());
      ghost var done: seq<Event> := [];
      NoEvent(listener.progress);
      PrependNothing(goal);
      while input.HasBytes(Needed())
        invariant Valid() && Heard(done)
        invariant Read(View(), input.Remaining()).Stopped?
        invariant goal == Prepend(done, Read(View(), input.Remaining()))
        decreases |input.Remaining()|, if View() == AtType then 0 else 1
      {
        WaitMeans();
        ghost var t := NextTurn();
        TurnAdds(goal, done, View(), input.Remaining());
        ParserAppend(old(listener.progress), done, t.events);
        Step();
        done := done + t.events;
      }
      WaitMeans();
      ReadWaits(View(), input.Remaining());
      PrependLast(done, View(), input.Remaining());
    }
  }
}
