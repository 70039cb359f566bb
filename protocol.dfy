/** The message codec of protocol.py: a two-level tagged variant (side, then
    kind), its encoder `to_dict` and its strict decoder `from_dict`, over an
    already parsed JSON object. */
module Protocol {
  import opened Wrappers
  import Text

  /** The parsed JSON values the decoder never reads, only names in an error. */
  datatype OtherKind = FloatValue | ListValue | ObjectValue

  /** A JSON value as the decoder sees it. `Other` stands for a float, a list
      or a nested object: the decoder only ever looks at its Python type name. */
  datatype Value = Str(s: string) | Int(i: int) | Bool(b: bool) | Null | Other(kind: OtherKind)

  /** A parsed JSON object. */
  type Dict = map<string, Value>

  /** The Python types `get_value` is asked for. */
  datatype Ty = StrTy | IntTy | BoolTy

  /** `type(v) == ty`: exact type equality, so `True` is not an `int`. */
  predicate HasType(v: Value, ty: Ty) {
    match ty
    case StrTy => v.Str?
    case IntTy => v.Int?
    case BoolTy => v.Bool?
  }

  /** `ty.__name__` */
  function TyName(ty: Ty): string {
    match ty
    case StrTy => "str"
    case IntTy => "int"
    case BoolTy => "bool"
  }

  /** `type(v).__name__` */
  function TypeName(v: Value): string {
    match v
    case Str(_) => "str"
    case Int(_) => "int"
    case Bool(_) => "bool"
    case Null => "NoneType"
    case Other(FloatValue) => "float"
    case Other(ListValue) => "list"
    case Other(ObjectValue) => "dict"
  }

  /** The `ValueError`s the decoder raises. */
  datatype DecodeError =
    | KeyNotDefined(name: string)
    | WrongType(name: string, expected: Ty, got: string)
    | UnsupportedVersion(version: int)
    | InvalidSide(side: string)
    | InvalidKind(kind: string, className: string)

  /** `str(e)` of the raised `ValueError`: it names the offending field, side,
      kind or version. */
  function Describe(e: DecodeError): (r: string)
    ensures e.KeyNotDefined? || e.WrongType? ==> exists i :: Text.OccursAt(r, e.name, i)
    ensures e.WrongType? ==> exists i :: Text.OccursAt(r, e.got, i)
    ensures e.UnsupportedVersion? ==> exists i :: Text.OccursAt(r, Text.IntToDecimal(e.version), i)
    ensures e.InvalidSide? ==> exists i :: Text.OccursAt(r, e.side, i)
    ensures e.InvalidKind? ==> exists i :: Text.OccursAt(r, e.kind, i)
  {
    match e
    case KeyNotDefined(name) =>
      Named("Key ", name, " not defined")
    case WrongType(name, ty, got) =>
      var head := Named("Expected value of ", name, " to be of type " + TyName(ty) + ", got ");
      var r := head + got;
      assert r[|"Expected value of "|..|"Expected value of "| + |name|] == head[|"Expected value of "|..|"Expected value of "| + |name|];
      assert Text.OccursAt(r, name, |"Expected value of "|);
      assert r[|head|..] == got;
      assert Text.OccursAt(r, got, |head|);
      r
    case UnsupportedVersion(v) => Named("Only version 0 is currently supported, got version ", Text.IntToDecimal(v), "")
    case InvalidSide(side) => Named("Invalid side `", side, "`")
    case InvalidKind(kind, className) => Named("Invalid kind `", kind, "` for " + className)
  }

  /** `before + x + after`, in which `x` occurs right after `before`. */
  function Named(before: string, x: string, after: string): (r: string)
    ensures r == before + x + after && Text.OccursAt(r, x, |before|)
  {
    var r := before + x + after;
    assert r[|before|..|before| + |x|] == x;
    r
  }

  /** `get_value(data, name, ty, optional)`: `Success(None)` for an absent
      optional key, `Success(Some(v))` for a present value of exactly type `ty`. */
  function GetValue(data: Dict, name: string, ty: Ty, optional: bool): (r: Result<Option<Value>, DecodeError>)
    ensures r == Success(None) <==> name !in data && optional
    ensures name !in data && !optional ==> r == Failure(KeyNotDefined(name))
    ensures name in data && !HasType(data[name], ty) ==> r == Failure(WrongType(name, ty, TypeName(data[name])))
    ensures r.Success? && r.value.Some? <==> name in data && HasType(data[name], ty)
    ensures r.Success? && r.value.Some? ==> r.value.value == data[name]
  {
    if name !in data then
      if optional then Success(None) else Failure(KeyNotDefined(name))
    else if !HasType(data[name], ty) then
      Failure(WrongType(name, ty, TypeName(data[name])))
    else
      Success(Some(data[name]))
  }

  /** An optional field is absent or of exactly type `ty`. */
  predicate Fits(data: Dict, name: string, ty: Ty) {
    name !in data || HasType(data[name], ty)
  }

  /** A field is present and of exactly type `ty`. */
  predicate Holds(data: Dict, name: string, ty: Ty) {
    name in data && HasType(data[name], ty)
  }

  /** The error `get_value` raises for a field that is absent or of another type. */
  function FieldError(data: Dict, name: string, ty: Ty): DecodeError {
    if name !in data then KeyNotDefined(name) else WrongType(name, ty, TypeName(data[name]))
  }

  /** The string an optional field holds, if it holds one. */
  function StrField(data: Dict, name: string): Option<string> {
    if name in data && data[name].Str? then Some(data[name].s) else None
  }

  /** The int an optional field holds, if it holds one. */
  function IntField(data: Dict, name: string): Option<int> {
    if name in data && data[name].Int? then Some(data[name].i) else None
  }

  // Typed views of get_value, one per (type, optional) pair the decoders use.

  function RequiredStr(data: Dict, name: string): (r: Result<string, DecodeError>)
    ensures r.Failure? <==> !Holds(data, name, StrTy)
    ensures r.Failure? ==> r.error == FieldError(data, name, StrTy)
    ensures r.Success? ==> data[name] == Str(r.value)
  {
    var v :- GetValue(data, name, StrTy, false);
    Success(v.value.s)
  }

  function RequiredInt(data: Dict, name: string): (r: Result<int, DecodeError>)
    ensures r.Failure? <==> !Holds(data, name, IntTy)
    ensures r.Failure? ==> r.error == FieldError(data, name, IntTy)
    ensures r.Success? ==> data[name] == Int(r.value)
  {
    var v :- GetValue(data, name, IntTy, false);
    Success(v.value.i)
  }

  function RequiredBool(data: Dict, name: string): (r: Result<bool, DecodeError>)
    ensures r.Failure? <==> !Holds(data, name, BoolTy)
    ensures r.Failure? ==> r.error == FieldError(data, name, BoolTy)
    ensures r.Success? ==> data[name] == Bool(r.value)
  {
    var v :- GetValue(data, name, BoolTy, false);
    Success(v.value.b)
  }

  function OptionalStr(data: Dict, name: string): (r: Result<Option<string>, DecodeError>)
    ensures r.Failure? <==> !Fits(data, name, StrTy)
    ensures r.Failure? ==> r.error == FieldError(data, name, StrTy)
    ensures r.Success? ==> r.value == StrField(data, name)
  {
    var v :- GetValue(data, name, StrTy, true);
    Success(if v.Some? then Some(v.value.s) else None)
  }

  function OptionalInt(data: Dict, name: string): (r: Result<Option<int>, DecodeError>)
    ensures r.Failure? <==> !Fits(data, name, IntTy)
    ensures r.Failure? ==> r.error == FieldError(data, name, IntTy)
    ensures r.Success? ==> r.value == IntField(data, name)
  {
    var v :- GetValue(data, name, IntTy, true);
    Success(if v.Some? then Some(v.value.i) else None)
  }

  const CLIENT := "CLIENT"
  const SERVER := "SERVER"

  const REGISTER := "REGISTER"
  const CLIENTOK := "CLIENTOK"
  const ERROR := "Error"
  const RESULT := "RESULT"
  const SERVEROK := "SERVEROK"
  const INVALID := "INVALID"
  const EVALUATE := "EVALUATE"
  const TIMEOUT := "TIMEOUT"

  /** The four CLIENT-side message classes. */
  datatype ClientBody =
    | RegisterBody
    | ClientOkBody
    | ErrorBody(error: Option<string>)
    | ResultBody(success: bool, error: Option<string>, exitCode: Option<int>, stdout: Option<string>, stderr: Option<string>)

  /** The four SERVER-side message classes. */
  datatype ServerBody =
    | ServerOkBody
    | InvalidBody(error: Option<string>)
    | EvaluateBody(code: string)
    | TimeoutBody

  /** A message: first the side, then the kind. Every message has version 0. */
  datatype Message =
    | ClientMessage(id: string, key: string, cbody: ClientBody)
    | ServerMessage(id: string, sbody: ServerBody)

  function SideName(m: Message): string {
    if m.ClientMessage? then CLIENT else SERVER
  }

  /** The class attribute `kind` of the message's class. */
  function Kind(m: Message): string {
    match m
    case ClientMessage(_, _, b) =>
      (match b
       case RegisterBody => REGISTER
       case ClientOkBody => CLIENTOK
       case ErrorBody(_) => ERROR
       case ResultBody(_, _, _, _, _) => RESULT)
    case ServerMessage(_, b) =>
      (match b
       case ServerOkBody => SERVEROK
       case InvalidBody(_) => INVALID
       case EvaluateBody(_) => EVALUATE
       case TimeoutBody => TIMEOUT)
  }

  /** `Message.to_dict`: the four envelope fields. */
  function Header(id: string, kind: string, side: string): Dict {
    map["id" := Str(id), "version" := Int(0), "kind" := Str(kind), "side" := Str(side)]
  }

  /** `ResultMessage.to_dict`, lines that insert into `data` one after the other:
      `success`, then only the present fields of the branch it selects. */
  function EncodeResult(base: Dict, success: bool, error: Option<string>, exitCode: Option<int>,
                        stdout: Option<string>, stderr: Option<string>): (d: Dict)
    ensures d.Keys == base.Keys + {"success"}
      + (if success && exitCode.Some? then {"exit_code"} else {})
      + (if success && stdout.Some? then {"stdout"} else {})
      + (if success && stderr.Some? then {"stderr"} else {})
      + (if !success && error.Some? then {"error"} else {})
    ensures d["success"] == Bool(success)
    ensures success && exitCode.Some? ==> d["exit_code"] == Int(exitCode.value)
    ensures success && stdout.Some? ==> d["stdout"] == Str(stdout.value)
    ensures success && stderr.Some? ==> d["stderr"] == Str(stderr.value)
    ensures !success && error.Some? ==> d["error"] == Str(error.value)
  {
    if success then
      var d0 := base["success" := Bool(true)];
      var d1 := if exitCode.Some? then d0["exit_code" := Int(exitCode.value)] else d0;
      var d2 := if stdout.Some? then d1["stdout" := Str(stdout.value)] else d1;
      if stderr.Some? then d2["stderr" := Str(stderr.value)] else d2
    else
      var d0 := base["success" := Bool(false)];
      if error.Some? then d0["error" := Str(error.value)] else d0
  }

  /** `to_dict` of every message class. */
  function Encode(m: Message): (d: Dict)
    ensures "id" in d && d["id"] == Str(m.id)
    ensures "version" in d && d["version"] == Int(0)
    ensures "kind" in d && d["kind"] == Str(Kind(m))
    ensures "side" in d && d["side"] == Str(SideName(m))
    ensures m.ClientMessage? ==> "key" in d && d["key"] == Str(m.key)
  {
    match m
    case ClientMessage(id, key, b) => EncodeClient(id, key, b, Kind(m))
    case ServerMessage(id, b) => EncodeServer(id, b, Kind(m))
  }

  /** `to_dict` of the CLIENT-side classes: the header, `key`, then the payload. */
  function EncodeClient(id: string, key: string, b: ClientBody, kind: string): (d: Dict)
    ensures "id" in d && d["id"] == Str(id)
    ensures "version" in d && d["version"] == Int(0)
    ensures "kind" in d && d["kind"] == Str(kind)
    ensures "side" in d && d["side"] == Str(CLIENT)
    ensures "key" in d && d["key"] == Str(key)
  {
    var base := Header(id, kind, CLIENT)["key" := Str(key)];
    match b
    case RegisterBody => base
    case ClientOkBody => base
    // ErrorMessage.to_dict merges `key` a second time and never emits `error`
    case ErrorBody(_) => base["key" := Str(key)]
    case ResultBody(success, error, exitCode, stdout, stderr) =>
      EncodeResult(base, success, error, exitCode, stdout, stderr)
  }

  /** `to_dict` of the SERVER-side classes: the header, then the payload. */
  function EncodeServer(id: string, b: ServerBody, kind: string): (d: Dict)
    ensures "id" in d && d["id"] == Str(id)
    ensures "version" in d && d["version"] == Int(0)
    ensures "kind" in d && d["kind"] == Str(kind)
    ensures "side" in d && d["side"] == Str(SERVER)
  {
    var base := Header(id, kind, SERVER);
    match b
    case ServerOkBody => base
    case InvalidBody(error) => base["error" := if error.Some? then Str(error.value) else Null]
    case EvaluateBody(code) => base["code" := Str(code)]
    case TimeoutBody => base
  }

  /** `ClientMessage.from_dict`: `key` is read before the kind is examined, and
      a RESULT reads only the fields of the branch `success` selects. */
  function DecodeClient(data: Dict, id: string, kind: string): (r: Result<Message, DecodeError>)
    ensures "key" !in data ==> r == Failure(KeyNotDefined("key"))
    ensures !Holds(data, "key", StrTy) ==> r == Failure(FieldError(data, "key", StrTy))
    ensures Holds(data, "key", StrTy) && kind in {REGISTER, CLIENTOK} ==> r.Success?
    ensures Holds(data, "key", StrTy) && kind == ERROR ==> (r.Success? <==> Fits(data, "error", StrTy))
    ensures Holds(data, "key", StrTy) && kind == ERROR && !Fits(data, "error", StrTy)
            ==> r == Failure(FieldError(data, "error", StrTy))
    ensures Holds(data, "key", StrTy) && kind == RESULT && !Holds(data, "success", BoolTy)
            ==> r == Failure(FieldError(data, "success", BoolTy))
    ensures Holds(data, "key", StrTy) && kind == RESULT && "success" in data && data["success"] == Bool(true)
            ==> (!Fits(data, "exit_code", IntTy) ==> r == Failure(FieldError(data, "exit_code", IntTy)))
                && (Fits(data, "exit_code", IntTy) && !Fits(data, "stdout", StrTy)
                    ==> r == Failure(FieldError(data, "stdout", StrTy)))
                && (Fits(data, "exit_code", IntTy) && Fits(data, "stdout", StrTy) && !Fits(data, "stderr", StrTy)
                    ==> r == Failure(FieldError(data, "stderr", StrTy)))
    ensures Holds(data, "key", StrTy) && kind == RESULT && "success" in data && data["success"] == Bool(false) && !Fits(data, "error", StrTy)
            ==> r == Failure(FieldError(data, "error", StrTy))
    ensures r.Success? ==> r.value.ClientMessage? && r.value.id == id && Kind(r.value) == kind
                           && "key" in data && data["key"] == Str(r.value.key) && Canonical(r.value)
    ensures "key" in data && data["key"].Str? && kind !in {REGISTER, CLIENTOK, ERROR, RESULT}
            ==> r == Failure(InvalidKind(kind, "ClientMessage"))
    ensures "key" in data && data["key"].Str? && kind == RESULT
            ==> (r.Success? <==>
                   "success" in data && data["success"].Bool? &&
                   if data["success"].b then
                     Fits(data, "exit_code", IntTy) && Fits(data, "stdout", StrTy) && Fits(data, "stderr", StrTy)
                   else Fits(data, "error", StrTy))
    ensures r.Success? && kind == ERROR ==> r.value.cbody == ErrorBody(StrField(data, "error"))
    ensures r.Success? && kind == RESULT ==> "success" in data && data["success"] == Bool(r.value.cbody.success)
    ensures r.Success? && kind == RESULT && r.value.cbody.success ==>
      r.value.cbody == ResultBody(true, None, IntField(data, "exit_code"), StrField(data, "stdout"), StrField(data, "stderr"))
    ensures r.Success? && kind == RESULT && !r.value.cbody.success ==>
      r.value.cbody == ResultBody(false, StrField(data, "error"), None, None, None)
  {
    var key :- RequiredStr(data, "key");
    if kind == REGISTER then Success(ClientMessage(id, key, RegisterBody))
    else if kind == CLIENTOK then Success(ClientMessage(id, key, ClientOkBody))
    else if kind == ERROR then
      var error :- OptionalStr(data, "error");
      Success(ClientMessage(id, key, ErrorBody(error)))
    else if kind == RESULT then
      var success :- RequiredBool(data, "success");
      if success then
        var exitCode :- OptionalInt(data, "exit_code");
        var stdout :- OptionalStr(data, "stdout");
        var stderr :- OptionalStr(data, "stderr");
        Success(ClientMessage(id, key, ResultBody(true, None, exitCode, stdout, stderr)))
      else
        var error :- OptionalStr(data, "error");
        Success(ClientMessage(id, key, ResultBody(false, error, None, None, None)))
    else Failure(InvalidKind(kind, "ClientMessage"))
  }

  /** `ServerMessage.from_dict`: only INVALID and EVALUATE read a field. */
  function DecodeServer(data: Dict, id: string, kind: string): (r: Result<Message, DecodeError>)
    ensures r.Success? ==> r.value.ServerMessage? && r.value.id == id && Kind(r.value) == kind
    ensures kind !in {SERVEROK, INVALID, EVALUATE, TIMEOUT} ==> r == Failure(InvalidKind(kind, "ServerMessage"))
    ensures kind in {SERVEROK, TIMEOUT} ==> r.Success?
    ensures kind == INVALID ==> (r.Success? <==> Fits(data, "error", StrTy))
    ensures kind == EVALUATE ==> (r.Success? <==> "code" in data && data["code"].Str?)
    ensures kind == INVALID && !Fits(data, "error", StrTy) ==> r == Failure(FieldError(data, "error", StrTy))
    ensures kind == EVALUATE && !Holds(data, "code", StrTy) ==> r == Failure(FieldError(data, "code", StrTy))
    ensures r.Success? && kind == INVALID ==> r.value.sbody == InvalidBody(StrField(data, "error"))
    ensures r.Success? && kind == EVALUATE ==> "code" in data && r.value.sbody == EvaluateBody(data["code"].s)
  {
    if kind == SERVEROK then Success(ServerMessage(id, ServerOkBody))
    else if kind == INVALID then
      var error :- OptionalStr(data, "error");
      Success(ServerMessage(id, InvalidBody(error)))
    else if kind == EVALUATE then
      var code :- RequiredStr(data, "code");
      Success(ServerMessage(id, EvaluateBody(code)))
    else if kind == TIMEOUT then Success(ServerMessage(id, TimeoutBody))
    else Failure(InvalidKind(kind, "ServerMessage"))
  }

  /** The envelope fields are well typed: `id`, `kind`, `side` strings and `version` an int. */
  predicate WellTypedHeader(data: Dict) {
    "id" in data && data["id"].Str? && "version" in data && data["version"].Int?
    && "kind" in data && data["kind"].Str? && "side" in data && data["side"].Str?
  }

  /** `Message.from_dict`: a decoded message carries the id, kind, side and key
      of the object it came from, and only version 0 is accepted. */
  function Decode(data: Dict): (r: Result<Message, DecodeError>)
    ensures r.Success? ==> WellTypedHeader(data) && data["version"] == Int(0)
    ensures r.Success? ==> data["id"] == Str(r.value.id) && data["kind"] == Str(Kind(r.value))
                           && data["side"] == Str(SideName(r.value))
    ensures r.Success? && r.value.ClientMessage? ==> "key" in data && data["key"] == Str(r.value.key)
    ensures !Holds(data, "id", StrTy) ==> r == Failure(FieldError(data, "id", StrTy))
    ensures Holds(data, "id", StrTy) && !Holds(data, "version", IntTy) ==> r == Failure(FieldError(data, "version", IntTy))
    ensures Holds(data, "id", StrTy) && "version" in data && data["version"] == Int(0) && !Holds(data, "kind", StrTy)
            ==> r == Failure(FieldError(data, "kind", StrTy))
    ensures Holds(data, "id", StrTy) && "version" in data && data["version"] == Int(0) && Holds(data, "kind", StrTy)
              && !Holds(data, "side", StrTy)
            ==> r == Failure(FieldError(data, "side", StrTy))
    ensures "id" in data && data["id"].Str? && "version" in data && data["version"].Int? && data["version"].i != 0
            ==> r == Failure(UnsupportedVersion(data["version"].i))
    ensures WellTypedHeader(data) && data["version"] == Int(0) && data["side"].s != SERVER && data["side"].s != CLIENT
            ==> r == Failure(InvalidSide(data["side"].s))
    ensures WellTypedHeader(data) && data["version"] == Int(0) && data["side"] == Str(CLIENT)
            ==> r == DecodeClient(data, data["id"].s, data["kind"].s)
    ensures WellTypedHeader(data) && data["version"] == Int(0) && data["side"] == Str(SERVER)
            ==> r == DecodeServer(data, data["id"].s, data["kind"].s)
  {
    var id :- RequiredStr(data, "id");
    var version :- RequiredInt(data, "version");
    if version != 0 then Failure(UnsupportedVersion(version))
    else
      var kind :- RequiredStr(data, "kind");
      var side :- RequiredStr(data, "side");
      if side == SERVER then DecodeServer(data, id, kind)
      else if side == CLIENT then DecodeClient(data, id, kind)
      else Failure(InvalidSide(side))
  }

  /** The decoder fills in only the fields of the branch `success` selects, so
      only results whose other branch is empty can come back from a decode. */
  predicate Canonical(m: Message) {
    m.ClientMessage? && m.cbody.ResultBody? ==>
      if m.cbody.success then m.cbody.error.None?
      else m.cbody.exitCode.None? && m.cbody.stdout.None? && m.cbody.stderr.None?
  }

  /** The messages that survive `from_dict(to_dict(m))` unchanged. */
  predicate RoundTrips(m: Message) {
    Canonical(m)
    && !(m.ClientMessage? && m.cbody.ErrorBody? && m.cbody.error.Some?)
    && !(m.ServerMessage? && m.sbody.InvalidBody? && m.sbody.error.None?)
  }

  lemma DecodeClientEncoded(m: Message)
    requires m.ClientMessage?
    ensures DecodeClient(Encode(m), m.id, Kind(m)) ==
      match m.cbody
      case ErrorBody(_) => Success(ClientMessage(m.id, m.key, ErrorBody(None)))
      case ResultBody(success, error, exitCode, stdout, stderr) =>
        if success then Success(ClientMessage(m.id, m.key, ResultBody(true, None, exitCode, stdout, stderr)))
        else Success(ClientMessage(m.id, m.key, ResultBody(false, error, None, None, None)))
      case _ => Success(m)
  {
    match m.cbody
    case ResultBody(success, error, exitCode, stdout, stderr) =>
      DecodeResultEncoded(m.id, m.key, success, error, exitCode, stdout, stderr);
    case ErrorBody(_) =>
      assert "error" !in Encode(m);
    case _ =>
  }

  /** An encoded RESULT decodes to the fields of the branch `success` selects. */
  lemma DecodeResultEncoded(id: string, key: string, success: bool, error: Option<string>, exitCode: Option<int>,
                            stdout: Option<string>, stderr: Option<string>)
    ensures DecodeClient(Encode(ClientMessage(id, key, ResultBody(success, error, exitCode, stdout, stderr))), id, RESULT) ==
      if success then Success(ClientMessage(id, key, ResultBody(true, None, exitCode, stdout, stderr)))
      else Success(ClientMessage(id, key, ResultBody(false, error, None, None, None)))
  {
    if success {
      DecodeSuccessEncoded(id, key, error, exitCode, stdout, stderr);
    } else {
      DecodeFailureEncoded(id, key, error, exitCode, stdout, stderr);
    }
  }

  lemma DecodeSuccessEncoded(id: string, key: string, error: Option<string>, exitCode: Option<int>,
                             stdout: Option<string>, stderr: Option<string>)
    ensures DecodeClient(Encode(ClientMessage(id, key, ResultBody(true, error, exitCode, stdout, stderr))), id, RESULT)
         == Success(ClientMessage(id, key, ResultBody(true, None, exitCode, stdout, stderr)))
  {
    var base := Header(id, RESULT, CLIENT)["key" := Str(key)];
    var d := Encode(ClientMessage(id, key, ResultBody(true, error, exitCode, stdout, stderr)));
    assert d == EncodeResult(base, true, error, exitCode, stdout, stderr);
    assert "exit_code" !in base && "stdout" !in base && "stderr" !in base;
    assert RequiredStr(d, "key") == Success(key);
    assert RequiredBool(d, "success") == Success(true);
    assert OptionalInt(d, "exit_code") == Success(exitCode);
    assert OptionalStr(d, "stdout") == Success(stdout);
    assert OptionalStr(d, "stderr") == Success(stderr);
  }

  lemma DecodeFailureEncoded(id: string, key: string, error: Option<string>, exitCode: Option<int>,
                             stdout: Option<string>, stderr: Option<string>)
    ensures DecodeClient(Encode(ClientMessage(id, key, ResultBody(false, error, exitCode, stdout, stderr))), id, RESULT)
         == Success(ClientMessage(id, key, ResultBody(false, error, None, None, None)))
  {
    var base := Header(id, RESULT, CLIENT)["key" := Str(key)];
    var d := Encode(ClientMessage(id, key, ResultBody(false, error, exitCode, stdout, stderr)));
    assert d == EncodeResult(base, false, error, exitCode, stdout, stderr);
    assert "error" !in base;
    assert RequiredStr(d, "key") == Success(key);
    assert RequiredBool(d, "success") == Success(false);
    assert OptionalStr(d, "error") == Success(error);
  }

  lemma DecodeServerEncoded(m: Message)
    requires m.ServerMessage?
    ensures DecodeServer(Encode(m), m.id, Kind(m)) ==
      if m.sbody.InvalidBody? && m.sbody.error.None? then Failure(WrongType("error", StrTy, "NoneType"))
      else Success(m)
  {
  }

  /** `from_dict(to_dict(m)) == m` holds exactly for the messages of `RoundTrips`:
      it fails for an ERROR message carrying an error, for an INVALID message
      without one, and for a RESULT carrying fields of the branch it did not take. */
  lemma {:induction false} RoundTrip(m: Message)
    ensures Decode(Encode(m)) == Success(m) <==> RoundTrips(m)
  {
    var d := Encode(m);
    assert RequiredStr(d, "id") == Success(m.id);
    assert RequiredInt(d, "version") == Success(0);
    assert RequiredStr(d, "kind") == Success(Kind(m));
    assert RequiredStr(d, "side") == Success(SideName(m));
    if m.ClientMessage? {
      assert RequiredStr(d, "key") == Success(m.key);
      DecodeClientEncoded(m);
    } else {
      DecodeServerEncoded(m);
    }
  }

  /** ErrorMessage.to_dict re-emits `key` instead of `error`, so the error text is lost. */
  lemma ErrorMessageLosesError(id: string, key: string, error: string)
    ensures Decode(Encode(ClientMessage(id, key, ErrorBody(Some(error)))))
         == Success(ClientMessage(id, key, ErrorBody(None)))
  {
    RoundTrip(ClientMessage(id, key, ErrorBody(Some(error))));
    DecodeClientEncoded(ClientMessage(id, key, ErrorBody(Some(error))));
  }

  /** InvalidMessage.to_dict writes `'error': None`, which get_value then rejects on type. */
  lemma InvalidWithoutErrorRejected(id: string)
    ensures Encode(ServerMessage(id, InvalidBody(None)))["error"] == Null
    ensures Decode(Encode(ServerMessage(id, InvalidBody(None))))
         == Failure(WrongType("error", StrTy, "NoneType"))
  {
    DecodeServerEncoded(ServerMessage(id, InvalidBody(None)));
  }

  /** Every CLIENT message needs a string `key`, reported before an unknown kind. */
  lemma ClientKeyCheckedFirst(data: Dict)
    requires WellTypedHeader(data) && data["version"] == Int(0) && data["side"] == Str(CLIENT)
    requires "key" !in data
    ensures Decode(data) == Failure(KeyNotDefined("key"))
  {
  }

  /** A kind that is not one of the side's four is rejected, naming the side's class. */
  lemma UnknownKindRejected(data: Dict)
    requires WellTypedHeader(data) && data["version"] == Int(0)
    requires data["side"] == Str(CLIENT) ==> "key" in data && data["key"].Str?
    requires data["side"] == Str(CLIENT) ==> data["kind"].s !in {REGISTER, CLIENTOK, ERROR, RESULT}
    requires data["side"] == Str(SERVER) ==> data["kind"].s !in {SERVEROK, INVALID, EVALUATE, TIMEOUT}
    ensures data["side"] == Str(CLIENT) ==> Decode(data) == Failure(InvalidKind(data["kind"].s, "ClientMessage"))
    ensures data["side"] == Str(SERVER) ==> Decode(data) == Failure(InvalidKind(data["kind"].s, "ServerMessage"))
  {
  }

  /** The fields a RESULT is encoded with: `success` and the present fields of its
      own branch only; a successful result never carries `error`. */
  lemma ResultEncoding(id: string, key: string, success: bool, error: Option<string>, exitCode: Option<int>,
                       stdout: Option<string>, stderr: Option<string>)
    ensures var d := Encode(ClientMessage(id, key, ResultBody(success, error, exitCode, stdout, stderr)));
      d.Keys == {"id", "version", "kind", "side", "key", "success"}
        + (if success && exitCode.Some? then {"exit_code"} else {})
        + (if success && stdout.Some? then {"stdout"} else {})
        + (if success && stderr.Some? then {"stderr"} else {})
        + (if !success && error.Some? then {"error"} else {})
      && d["success"] == Bool(success)
  {
  }

  /** Decoding a RESULT ignores the fields of the branch `success` did not select. */
  lemma ResultIgnoresOtherBranch(data: Dict)
    requires WellTypedHeader(data) && data["version"] == Int(0) && data["side"] == Str(CLIENT)
    requires data["kind"] == Str(RESULT) && "success" in data && data["success"].Bool?
    ensures data["success"] == Bool(true) ==> Decode(data) == Decode(data - {"error"})
    ensures data["success"] == Bool(false) ==> Decode(data) == Decode(data - {"exit_code", "stdout", "stderr"})
  {
    var id := data["id"].s;
    DecodeResult(data);
    if data["success"] == Bool(true) {
      var d1 := data - {"error"};
      DecodeResult(d1);
      SameField(data, d1, "key");
      SameField(data, d1, "success");
      SameField(data, d1, "exit_code");
      SameField(data, d1, "stdout");
      SameField(data, d1, "stderr");
      assert DecodeClient(data, id, RESULT) == DecodeClient(d1, id, RESULT);
    } else {
      var d2 := data - {"exit_code", "stdout", "stderr"};
      DecodeResult(d2);
      SameField(data, d2, "key");
      SameField(data, d2, "success");
      SameField(data, d2, "error");
      assert DecodeClient(data, id, RESULT) == DecodeClient(d2, id, RESULT);
    }
  }

  /** A client RESULT with a well-typed version-0 header decodes by its body alone. */
  lemma DecodeResult(data: Dict)
    requires WellTypedHeader(data) && data["version"] == Int(0) && data["side"] == Str(CLIENT)
    requires data["kind"] == Str(RESULT)
    ensures Decode(data) == DecodeClient(data, data["id"].s, RESULT)
  {
  }

  /** Two objects that agree on a field read it alike. */
  lemma SameField(a: Dict, b: Dict, name: string)
    requires (name in a <==> name in b) && (name in a ==> a[name] == b[name])
    ensures forall ty, optional :: GetValue(a, name, ty, optional) == GetValue(b, name, ty, optional)
  {
  }

  /** The encoder as its callers evidently expect it: ErrorMessage emits its
      `error`, and InvalidMessage omits `error` when it has none. */
  function EncodeFixed(m: Message): Dict {
    match m
    case ClientMessage(_, _, ErrorBody(error)) =>
      if error.Some? then Encode(m)["error" := Str(error.value)] else Encode(m)
    case ServerMessage(_, InvalidBody(None)) => Encode(m) - {"error"}
    case _ => Encode(m)
  }

  /** With the corrected encoder every canonical message survives a round trip. */
  lemma {:induction false} FixedRoundTrip(m: Message)
    requires Canonical(m)
    ensures Decode(EncodeFixed(m)) == Success(m)
  {
    var d := EncodeFixed(m);
    if m.ClientMessage? && m.cbody.ErrorBody? {
      assert RequiredStr(d, "key") == Success(m.key);
      assert OptionalStr(d, "error") == Success(m.cbody.error);
    } else if m.ServerMessage? && m.sbody.InvalidBody? && m.sbody.error.None? {
      assert OptionalStr(d, "error") == Success(None);
    } else {
      RoundTrip(m);
    }
  }
}
