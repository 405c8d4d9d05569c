/** The parts of Go's `net/http` the handlers touch: response headers as a
    map from canonical names to values, and a `ResponseWriter` seen as the
    sequence of operations a handler performs on it. The views `StatusOf`,
    `HeaderAtCommit` and `Written` say what the client receives. */
module Http {

  /** `http.Header`: canonical header name to its values, in order. */
  type Header = map<string, seq<string>>

  /** `Header.Get`: the first value stored under the canonical name, or "". */
  function HeaderGet(h: Header, name: string): (v: string)
    ensures name in h && |h[name]| > 0 ==> v == h[name][0]
    ensures name !in h || |h[name]| == 0 ==> v == ""
  {
    if name in h && |h[name]| > 0 then h[name][0] else ""
  }

  const StatusOK: int := 200
  const StatusInternalServerError: int := 500

  /** A body chunk: plain text, or the JSON encoding (with the encoder's
      trailing newline) of a value the model keeps opaque. */
  datatype Payload<+V> = Text(text: string) | JsonEncoded(value: V)

  /** One call on an `http.ResponseWriter`. */
  datatype WriterOp<+V> =
    | AddHeader(name: string, value: string)    // Header().Add
    | SetHeader(name: string, value: string)    // Header().Set
    | WriteHeader(code: int)
    | Write(payload: Payload<V>)

  /** True once the status line has gone out: an explicit `WriteHeader`, or
      a `Write`, which sends 200 implicitly. */
  predicate Commits<V>(op: WriterOp<V>) {
    op.WriteHeader? || op.Write?
  }

  /** Status the client sees: the first `WriteHeader` before any `Write`;
      otherwise 200, which is also what a handler that writes nothing sends. */
  function StatusOf<V>(ops: seq<WriterOp<V>>): int {
    if |ops| == 0 then StatusOK
    else if ops[0].WriteHeader? then ops[0].code
    else if ops[0].Write? then StatusOK
    else StatusOf(ops[1..])
  }

  /** Values of header `name` at the moment the status line is sent; later
      header changes are not transmitted. */
  function HeaderAtCommit<V>(ops: seq<WriterOp<V>>, name: string): seq<string> {
    HeaderFrom(ops, name, [])
  }

  /** Effect of one header operation on the values of header `name`. */
  function ApplyHeaderOp<V>(op: WriterOp<V>, name: string, current: seq<string>): seq<string> {
    if Commits(op) || op.name != name then current
    else if op.AddHeader? then current + [op.value]
    else [op.value]
  }

  function HeaderFrom<V>(ops: seq<WriterOp<V>>, name: string, current: seq<string>): seq<string> {
    if |ops| == 0 || Commits(ops[0]) then current
    else HeaderFrom(ops[1..], name, ApplyHeaderOp(ops[0], name, current))
  }

  /** The body chunks, in order. */
  function Written<V>(ops: seq<WriterOp<V>>): seq<Payload<V>> {
    if |ops| == 0 then []
    else (if ops[0].Write? then [ops[0].payload] else []) + Written(ops[1..])
  }

  /** How each view reads a trace that starts with `op`. */
  lemma ViewsOfCons<V>(op: WriterOp<V>, rest: seq<WriterOp<V>>, name: string, current: seq<string>)
    ensures StatusOf([op] + rest) == (if op.WriteHeader? then op.code else if op.Write? then StatusOK else StatusOf(rest))
    ensures HeaderFrom([op] + rest, name, current) == (if Commits(op) then current else HeaderFrom(rest, name, ApplyHeaderOp(op, name, current)))
    ensures Written([op] + rest) == (if op.Write? then [op.payload] else []) + Written(rest)
  {
    assert ([op] + rest)[1..] == rest;
  }

  /** `http.Error(w, msg, code)`: plain-text content type, `nosniff`, the
      status code, then `msg` and a newline. */
  function Error<V>(msg: string, code: int): (ops: seq<WriterOp<V>>)
    ensures StatusOf(ops) == code
    ensures Written(ops) == [Text(msg + "\n")]
    ensures HeaderAtCommit(ops, "Content-Type") == ["text/plain; charset=utf-8"]
    ensures HeaderAtCommit(ops, "X-Content-Type-Options") == ["nosniff"]
  {
    var body: seq<WriterOp<V>> := [Write(Text(msg + "\n"))];
    var sent := [WriteHeader(code)] + body;
    var nosniff := [SetHeader("X-Content-Type-Options", "nosniff")] + sent;
    var ops := [SetHeader("Content-Type", "text/plain; charset=utf-8")] + nosniff;
    ViewsOfCons<V>(body[0], [], "", []);
    assert body == [Write(Text(msg + "\n"))] + [];
    forall name: string, current: seq<string>
      ensures HeaderFrom(sent, name, current) == current
      ensures HeaderFrom(nosniff, name, current) == ApplyHeaderOp(nosniff[0], name, current)
      ensures HeaderFrom(ops, name, current) == ApplyHeaderOp(nosniff[0], name, ApplyHeaderOp(ops[0], name, current))
    {
      ViewsOfCons(WriteHeader(code), body, name, current);
      ViewsOfCons(nosniff[0], sent, name, current);
      ViewsOfCons(ops[0], nosniff, name, ApplyHeaderOp(ops[0], name, current));
      ViewsOfCons(ops[0], nosniff, name, current);
    }
    ViewsOfCons(WriteHeader(code), body, "", []);
    ViewsOfCons(nosniff[0], sent, "", []);
    ViewsOfCons(ops[0], nosniff, "", []);
    ops
  }
}
