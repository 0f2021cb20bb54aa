// The store of sealed execution specs (src/execution/execution-spec-persistence.ts), over the
// table execution_specs with its unique index on the task id.
module SpecStore {
  import opened Wrappers
  import opened SpecCanonical
  import opened SpecHash
  import StepPlanning

  datatype SpecStatus = Unsealed | Validated | Sealed | Blocked

  datatype Record = Record(
    id: string, taskId: string, specHash: string, objective: Json, lineage: Json, status: SpecStatus,
    createdAt: int, sealedAt: Option<int>, content: string)

  datatype SpecError =
    | StructuralInvalid | AlreadyExists | NotFound | SealedWithDifferentHash | Corrupted
    | HashMismatch | SemanticInvalid | SealedIsImmutable | NotSealed | IntegrityViolation

  // The optional argument of sealExecutionSpec.
  datatype SealArgument = Nothing | ExpectedHash(hash: string) | NewSpec(spec: Json)

  predicate Blank(s: string) {
    StepPlanning.Trim(s) == ""
  }

  // A value as the language can have it: no key twice, keys in enumeration order.
  ghost predicate IsValue(v: Json) {
    WellFormed(v) && Enumerated(v)
  }

  // What the code elsewhere is relied on for: parsing inverts serialising; the structural
  // validator accepts objects with null, object or no metadata only, and of what the semantic
  // validator also accepts (which includes well-formed metadata) it minds no hash; a digest is
  // never blank.
  ghost predicate Sound(c: Codec) {
    && (forall v | IsValue(v) :: c.parse(c.stringify(v)) == Some(v))
    && (forall t :: c.parse(t).Some? ==> IsValue(c.parse(t).value))
    && (forall v | c.structural(v) :: HasSpecShape(v))
    && (forall v, h | c.structural(v) && c.semantic(WithSpecHash(v, h)) :: c.structural(WithSpecHash(v, h)))
    && (forall t :: !Blank(c.digest(t)))
  }

  // ---------- What the operations return ----------

  function Find(rows: seq<Record>, taskId: string): (r: Option<Record>)
    ensures r.Some? ==> r.value in rows && r.value.taskId == taskId
    ensures r.None? ==> forall row | row in rows :: row.taskId != taskId
  {
    if rows == [] then None else if rows[0].taskId == taskId then Some(rows[0]) else Find(rows[1..], taskId)
  }

  function FieldOf(spec: Json, key: string): Json {
    Lookup(Spread(spec), key).GetOr(JNull)
  }

  function CreateOutcome(c: Codec, rows: seq<Record>, taskId: string, raw: Json, id: string, now: int): Result<Record, SpecError> {
    if !c.structural(raw) then Failure(StructuralInvalid)
    else if Find(rows, taskId).Some? then Failure(AlreadyExists)
    else Success(Record(id, taskId, "", FieldOf(raw, "objective"), FieldOf(raw, "lineage"), Unsealed, now, None, c.stringify(raw)))
  }

  function SpecToSeal(c: Codec, row: Record, argument: SealArgument): Option<Json> {
    if argument.NewSpec? then Some(argument.spec) else c.parse(row.content)
  }

  predicate Expects(argument: SealArgument, hash: string) {
    argument.ExpectedHash? && !Blank(argument.hash) ==> argument.hash == hash
  }

  function SealOutcome(c: Codec, rows: seq<Record>, taskId: string, argument: SealArgument, now: int): Result<Record, SpecError> {
    match Find(rows, taskId)
    case None => Failure(NotFound)
    case Some(row) =>
      if row.status == Sealed then
        if Expects(argument, row.specHash) then Success(row) else Failure(SealedWithDifferentHash)
      else match SpecToSeal(c, row, argument)
        case None => Failure(Corrupted)
        case Some(spec) =>
          if !c.structural(spec) then Failure(StructuralInvalid)
          else
            var hash := ComputeSpecHash(c, spec);
            var sealed := WithSpecHash(spec, JString(hash));
            if !Expects(argument, hash) then Failure(HashMismatch)
            else if !c.semantic(sealed) then Failure(SemanticInvalid)
            else Success(row.(status := Sealed, sealedAt := Some(now), specHash := hash, content := c.stringify(sealed)))
  }

  // UPDATE ... WHERE task_id = row.taskId
  function Write(rows: seq<Record>, row: Record): (r: seq<Record>)
    ensures |r| == |rows|
    ensures forall i | 0 <= i < |rows| :: r[i] == if rows[i].taskId == row.taskId then row else rows[i]
  {
    if rows == [] then [] else [if rows[0].taskId == row.taskId then row else rows[0]] + Write(rows[1..], row)
  }

  predicate Verifies(c: Codec, rows: seq<Record>, taskId: string) {
    match Find(rows, taskId)
    case None => false
    case Some(row) =>
      && row.status == Sealed && !Blank(row.specHash) && c.parse(row.content).Some?
      && var spec := c.parse(row.content).value;
         c.structural(spec) && ComputeSpecHash(c, spec) == row.specHash && c.semantic(WithSpecHash(spec, JString(row.specHash)))
  }

  // ---------- The operations ----------

  class ExecutionSpecs {
    const codec: Codec
    var rows: seq<Record>

    constructor (codec: Codec)
      ensures this.codec == codec && rows == []
    {
      this.codec := codec;
      rows := [];
    }

    method CreateExecutionSpec(taskId: string, raw: Json, id: string, now: int) returns (r: Result<Record, SpecError>)
      modifies this
      ensures r == CreateOutcome(codec, old(rows), taskId, raw, id, now)
      ensures rows == if r.Success? then old(rows) + [r.value] else old(rows)
    {
      if !codec.structural(raw) {
        return Failure(StructuralInvalid);
      }
      var existing := Find(rows, taskId);
      if existing.Some? {
        return Failure(AlreadyExists);
      }
      var row := Record(id, taskId, "", FieldOf(raw, "objective"), FieldOf(raw, "lineage"), Unsealed, now, None, codec.stringify(raw));
      rows := rows + [row];
      r := Success(row);
    }

    // A sealed row is refused; it is read again here.
    method QueryUpdateStatus(taskId: string, status: SpecStatus, sealedAt: Option<int>, specHash: Option<string>, content: Option<string>)
      returns (r: Result<Record, SpecError>)
      modifies this
      ensures match Find(old(rows), taskId)
              case None => r == Failure(NotFound) && rows == old(rows)
              case Some(row) =>
                if row.status == Sealed then r == Failure(SealedIsImmutable) && rows == old(rows)
                else
                  var next := row.(status := status, sealedAt := sealedAt, specHash := specHash.GetOr(row.specHash),
                                   content := content.GetOr(row.content));
                  r == Success(next) && rows == Write(old(rows), next)
    {
      var existing := Find(rows, taskId);
      if existing.Some? && existing.value.status == Sealed {
        return Failure(SealedIsImmutable);
      }
      if existing.None? {
        return Failure(NotFound);
      }
      var next := existing.value.(status := status, sealedAt := sealedAt, specHash := specHash.GetOr(existing.value.specHash),
                                  content := content.GetOr(existing.value.content));
      rows := Write(rows, next);
      r := Success(next);
    }

    method SealExecutionSpec(taskId: string, argument: SealArgument, now: int) returns (r: Result<Record, SpecError>)
      modifies this
      ensures r == SealOutcome(codec, old(rows), taskId, argument, now)
      ensures rows == AfterSeal(old(rows), taskId, r)
    {
      var existing := Find(rows, taskId);
      if existing.None? {
        return Failure(NotFound);
      }
      if existing.value.status == Sealed {
        if argument.ExpectedHash? && !Blank(argument.hash) && argument.hash != existing.value.specHash {
          return Failure(SealedWithDifferentHash);
        }
        return Success(existing.value);
      }
      var spec: Json;
      if argument.NewSpec? {
        spec := argument.spec;
      } else {
        var parsed := codec.parse(existing.value.content);
        if parsed.None? {
          return Failure(Corrupted);
        }
        spec := parsed.value;
      }
      if !codec.structural(spec) {
        return Failure(StructuralInvalid);
      }
      var computedHash := ComputeSpecHash(codec, spec);
      if argument.ExpectedHash? && !Blank(argument.hash) && argument.hash != computedHash {
        return Failure(HashMismatch);
      }
      var sealed := WithSpecHash(spec, JString(computedHash));
      if !codec.semantic(sealed) {
        return Failure(SemanticInvalid);
      }
      r := QueryUpdateStatus(taskId, Sealed, Some(now), Some(computedHash), Some(codec.stringify(sealed)));
    }

    method VerifyExecutionSpecIntegrity(taskId: string) returns (ok: bool)
      ensures ok <==> Verifies(codec, rows, taskId)
    {
      var record := Find(rows, taskId);
      if record.None? || record.value.status != Sealed || Blank(record.value.specHash) {
        return false;
      }
      var parsed := codec.parse(record.value.content);
      if parsed.None? || !codec.structural(parsed.value) {
        return false;
      }
      var computedHash := ComputeSpecHash(codec, parsed.value);
      if computedHash != record.value.specHash {
        return false;
      }
      ok := codec.semantic(WithSpecHash(parsed.value, JString(computedHash)));
    }

    // JSON null has no metadata to read, which throws.
    method AssertSealedExecutable(taskId: string) returns (r: Result<Record, SpecError>)
      ensures r == ExecutableOutcome(codec, rows, taskId)
    {
      var record := Find(rows, taskId);
      if record.None? {
        return Failure(NotFound);
      }
      if record.value.status != Sealed {
        return Failure(NotSealed);
      }
      var parsed := codec.parse(record.value.content);
      if parsed.None? || parsed.value == JNull {
        return Failure(Corrupted);
      }
      if record.value.specHash != "" && record.value.specHash != ComputeSpecHash(codec, parsed.value) {
        return Failure(IntegrityViolation);
      }
      r := Success(record.value);
    }
  }

  function AfterSeal(rows: seq<Record>, taskId: string, r: Result<Record, SpecError>): seq<Record> {
    if r.Success? && Find(rows, taskId) != Some(r.value) then Write(rows, r.value) else rows
  }

  function ExecutableOutcome(c: Codec, rows: seq<Record>, taskId: string): Result<Record, SpecError> {
    match Find(rows, taskId)
    case None => Failure(NotFound)
    case Some(row) =>
      if row.status != Sealed then Failure(NotSealed)
      else match c.parse(row.content)
        case None => Failure(Corrupted)
        case Some(spec) =>
          if spec == JNull then Failure(Corrupted)
          else if row.specHash != "" && row.specHash != ComputeSpecHash(c, spec) then Failure(IntegrityViolation)
          else Success(row)
  }

  // ---------- Runs of create and seal ----------

  datatype Operation =
    | Create(taskId: string, raw: Json, id: string, now: int)
    | Seal(taskId: string, argument: SealArgument, now: int)

  function After(c: Codec, rows: seq<Record>, op: Operation): seq<Record> {
    match op
    case Create(taskId, raw, id, now) =>
      var r := CreateOutcome(c, rows, taskId, raw, id, now);
      if r.Success? then rows + [r.value] else rows
    case Seal(taskId, argument, now) => AfterSeal(rows, taskId, SealOutcome(c, rows, taskId, argument, now))
  }

  function AfterAll(c: Codec, rows: seq<Record>, ops: seq<Operation>): seq<Record>
    decreases |ops|
  {
    if ops == [] then rows else AfterAll(c, After(c, rows, ops[0]), ops[1..])
  }

  ghost predicate Proper(op: Operation) {
    && (op.Create? ==> IsValue(op.raw))
    && (op.Seal? && op.argument.NewSpec? ==> IsValue(op.argument.spec))
  }

  ghost predicate OnePerTask(rows: seq<Record>) {
    forall i, j :: 0 <= i < j < |rows| ==> rows[i].taskId != rows[j].taskId
  }

  // The content of a sealed record is valid and carries the hash of itself.
  ghost predicate ValidlySealed(c: Codec, row: Record) {
    && !Blank(row.specHash) && c.parse(row.content).Some?
    && var spec := c.parse(row.content).value;
       && c.structural(spec) && c.semantic(spec)
       && ComputeSpecHash(c, spec) == row.specHash && WithSpecHash(spec, JString(row.specHash)) == spec
  }

  ghost predicate Trustworthy(c: Codec, rows: seq<Record>) {
    OnePerTask(rows) && forall row | row in rows :: row.status == Sealed ==> ValidlySealed(c, row)
  }

  lemma SealingIsValid(c: Codec, rows: seq<Record>, taskId: string, argument: SealArgument, now: int)
    requires Sound(c) && Find(rows, taskId).Some? && Find(rows, taskId).value.status != Sealed
    requires Proper(Seal(taskId, argument, now))
    ensures var r := SealOutcome(c, rows, taskId, argument, now);
            r.Success? ==> ValidlySealed(c, r.value) && r.value.status == Sealed && r.value.taskId == taskId
  {
    var r := SealOutcome(c, rows, taskId, argument, now);
    if r.Success? {
      var spec := SpecToSeal(c, Find(rows, taskId).value, argument).value;
      var hash := JString(ComputeSpecHash(c, spec));
      WithSpecHashWellFormed(spec, hash);
      WithSpecHashEnumerated(spec, hash.text);
      HashIgnoresItself(c, spec, hash);
      WithSpecHashTwice(spec, hash, hash);
      assert !Blank(c.digest(CanonicalSerialize(c, spec)));
    }
  }

  lemma {:induction false} FindUnique(rows: seq<Record>, row: Record)
    requires OnePerTask(rows) && row in rows
    ensures Find(rows, row.taskId) == Some(row)
  {
  }

  // Overwriting the unsealed record of a task with a validly sealed one.
  lemma WriteKeeps(c: Codec, rows: seq<Record>, row: Record)
    requires Trustworthy(c, rows) && row.status == Sealed && ValidlySealed(c, row)
    requires Find(rows, row.taskId).Some? && Find(rows, row.taskId).value.status != Sealed
    ensures Trustworthy(c, Write(rows, row)) && row in Write(rows, row)
    ensures KeepsSealed(rows, Write(rows, row))
  {
    hide ValidlySealed, Write;
    var next := Write(rows, row);
    var k :| 0 <= k < |rows| && rows[k] == Find(rows, row.taskId).value;
    assert next[k] == row;
    forall kept | kept in rows && kept.status == Sealed
      ensures kept in next
    {
      FindUnique(rows, kept);
      var i :| 0 <= i < |rows| && rows[i] == kept;
      assert next[i] == kept;
    }
  }

  // No sealed record is changed or lost.
  ghost predicate KeepsSealed(before: seq<Record>, after: seq<Record>) {
    forall row | row in before && row.status == Sealed :: row in after
  }

  // Every operation keeps one record per task and valid content under every seal, and no
  // operation touches a sealed record.
  lemma StepKeeps(c: Codec, rows: seq<Record>, op: Operation)
    requires Sound(c) && Trustworthy(c, rows) && Proper(op)
    ensures Trustworthy(c, After(c, rows, op))
    ensures KeepsSealed(rows, After(c, rows, op))
  {
    hide Sound, ValidlySealed;
    match op
    case Create(_, _, _, _) =>
    case Seal(taskId, argument, now) =>
      SealKeeps(c, rows, taskId, argument, now);
  }

  lemma SealKeeps(c: Codec, rows: seq<Record>, taskId: string, argument: SealArgument, now: int)
    requires Sound(c) && Trustworthy(c, rows) && Proper(Seal(taskId, argument, now))
    ensures var r := SealOutcome(c, rows, taskId, argument, now);
            Trustworthy(c, AfterSeal(rows, taskId, r)) && KeepsSealed(rows, AfterSeal(rows, taskId, r))
            && (r.Success? ==> r.value.taskId == taskId && r.value.status == Sealed && r.value in AfterSeal(rows, taskId, r))
  {
    hide Sound, ValidlySealed, Write, Trustworthy;
    var r := SealOutcome(c, rows, taskId, argument, now);
    if r.Success? && Find(rows, taskId).value.status != Sealed {
      SealingIsValid(c, rows, taskId, argument, now);
      WriteKeeps(c, rows, r.value);
    }
  }

  lemma {:induction false} RunKeeps(c: Codec, rows: seq<Record>, ops: seq<Operation>)
    requires Sound(c) && Trustworthy(c, rows) && forall op | op in ops :: Proper(op)
    ensures Trustworthy(c, AfterAll(c, rows, ops))
    ensures KeepsSealed(rows, AfterAll(c, rows, ops))
    decreases |ops|
  {
    hide Sound, Trustworthy, After, Proper;
    if ops != [] {
      assert ops[0] in ops && forall op | op in ops[1..] :: op in ops;
      StepKeeps(c, rows, ops[0]);
      RunKeeps(c, After(c, rows, ops[0]), ops[1..]);
    }
  }

  // In every store reached from the empty one, executing and verifying accept exactly the tasks
  // whose record is sealed.
  lemma SealedMeansExecutable(c: Codec, ops: seq<Operation>, taskId: string)
    requires Sound(c) && forall op | op in ops :: Proper(op)
    ensures var rows := AfterAll(c, [], ops);
            var found := Find(rows, taskId);
            && (Verifies(c, rows, taskId) <==> found.Some? && found.value.status == Sealed)
            && (found.Some? && found.value.status == Sealed ==> ExecutableOutcome(c, rows, taskId) == Success(found.value))
            && (ExecutableOutcome(c, rows, taskId).Success? ==> Verifies(c, rows, taskId))
  {
    RunKeeps(c, [], ops);
  }

  // Once sealed, a task's record is what every later seal returns, unless the caller names
  // another hash; nothing that happens in between can change it.
  lemma SealIsFinal(c: Codec, rows: seq<Record>, taskId: string, argument: SealArgument, now: int, later: seq<Operation>,
                    again: SealArgument, at: int)
    requires Sound(c) && Trustworthy(c, rows) && Proper(Seal(taskId, argument, now))
    requires SealOutcome(c, rows, taskId, argument, now).Success? && forall op | op in later :: Proper(op)
    ensures var sealed := SealOutcome(c, rows, taskId, argument, now).value;
            var reached := AfterAll(c, After(c, rows, Seal(taskId, argument, now)), later);
            SealOutcome(c, reached, taskId, again, at)
            == if Expects(again, sealed.specHash) then Success(sealed) else Failure(SealedWithDifferentHash)
  {
    var sealed := SealOutcome(c, rows, taskId, argument, now).value;
    var next := After(c, rows, Seal(taskId, argument, now));
    SealKeeps(c, rows, taskId, argument, now);
    RunKeeps(c, next, later);
    FindUnique(AfterAll(c, next, later), sealed);
  }

  // ---------- Which calls succeed, and what the others answer ----------

  // A blank expectation is none.
  predicate Contradicts(argument: SealArgument, hash: string) {
    argument.ExpectedHash? && (exists ch :: ch in argument.hash && !StepPlanning.IsSpace(ch)) && argument.hash != hash
  }

  lemma ExpectsUnlessContradicted(argument: SealArgument, hash: string)
    ensures Expects(argument, hash) <==> !Contradicts(argument, hash)
  {
    hide StepPlanning.IsSpace;
  }

  // Creating succeeds exactly for structurally valid content of a task without record, and stores it
  // unsealed, without hash and as it came.
  lemma CreatesExactlyWhen(c: Codec, rows: seq<Record>, taskId: string, raw: Json, id: string, now: int)
    ensures var r := CreateOutcome(c, rows, taskId, raw, id, now);
            && (r.Success? <==> c.structural(raw) && forall row | row in rows :: row.taskId != taskId)
            && (r.Success? ==>
                  && r.value.id == id && r.value.taskId == taskId && r.value.status == Unsealed && r.value.specHash == ""
                  && r.value.content == c.stringify(raw) && r.value.createdAt == now && r.value.sealedAt == None
                  && (raw.JObject? ==>
                        && (Lookup(raw.fields, "objective").Some? ==> r.value.objective == Lookup(raw.fields, "objective").value)
                        && (Lookup(raw.fields, "lineage").Some? ==> r.value.lineage == Lookup(raw.fields, "lineage").value)))
            && (r.Failure? ==> r.error == if c.structural(raw) then AlreadyExists else StructuralInvalid)
  {
    var found := Find(rows, taskId);
  }

  // Sealing an unsealed record: the new content, or what is stored, must parse, be structurally
  // valid, have the hash that the caller names, if any, and be semantically valid once the hash is
  // written into it; the first that fails is the answer. Everything else of the record stays.
  lemma SealsExactlyWhen(c: Codec, rows: seq<Record>, row: Record, argument: SealArgument, now: int)
    requires OnePerTask(rows) && row in rows && row.status != Sealed
    ensures var r := SealOutcome(c, rows, row.taskId, argument, now);
            var content := if argument.NewSpec? then Some(argument.spec) else c.parse(row.content);
            && (r == Failure(Corrupted) <==> content.None?)
            && (r == Failure(StructuralInvalid) <==> content.Some? && !c.structural(content.value))
            && (content.Some? && c.structural(content.value) ==>
                  var hash := ComputeSpecHash(c, content.value);
                  var sealed := WithSpecHash(content.value, JString(hash));
                  && (r == Failure(HashMismatch) <==> Contradicts(argument, hash))
                  && (r == Failure(SemanticInvalid) <==> !Contradicts(argument, hash) && !c.semantic(sealed))
                  && (r.Success? <==> !Contradicts(argument, hash) && c.semantic(sealed))
                  && (r.Success? ==>
                        && r.value.status == Sealed && r.value.sealedAt == Some(now) && r.value.specHash == hash
                        && r.value.content == c.stringify(sealed) && r.value.id == row.id && r.value.taskId == row.taskId
                        && r.value.objective == row.objective && r.value.lineage == row.lineage && r.value.createdAt == row.createdAt))
  {
    FindUnique(rows, row);
    if argument.NewSpec? || c.parse(row.content).Some? {
      var spec := if argument.NewSpec? then argument.spec else c.parse(row.content).value;
      ExpectsUnlessContradicted(argument, ComputeSpecHash(c, spec));
    }
    hide WithSpecHash, ComputeSpecHash, Expects, Contradicts;
  }

  // Sealing again answers with the sealed record unless the caller names another hash; and there is
  // nothing to seal where there is no record.
  lemma SealsAgainExactlyWhen(c: Codec, rows: seq<Record>, row: Record, argument: SealArgument, now: int)
    requires OnePerTask(rows) && row in rows && row.status == Sealed
    ensures SealOutcome(c, rows, row.taskId, argument, now)
            == if Contradicts(argument, row.specHash) then Failure(SealedWithDifferentHash) else Success(row)
  {
    FindUnique(rows, row);
    ExpectsUnlessContradicted(argument, row.specHash);
    hide Expects, Contradicts;
  }

  lemma NothingToSeal(c: Codec, rows: seq<Record>, taskId: string, argument: SealArgument, now: int)
    requires forall row | row in rows :: row.taskId != taskId
    ensures SealOutcome(c, rows, taskId, argument, now) == Failure(NotFound) && ExecutableOutcome(c, rows, taskId) == Failure(NotFound)
    ensures !Verifies(c, rows, taskId)
  {
  }

  // A record is executable exactly if it is sealed, parses to something other than null, and its
  // hash, unless empty, is that of its content.
  lemma ExecutableExactlyWhen(c: Codec, rows: seq<Record>, row: Record)
    requires OnePerTask(rows) && row in rows
    ensures var r := ExecutableOutcome(c, rows, row.taskId);
            && (r.Success? ==> r.value == row)
            && (r == Failure(NotSealed) <==> row.status != Sealed)
            && (r == Failure(Corrupted) <==> row.status == Sealed && c.parse(row.content) in {None, Some(JNull)})
            && (r.Success? <==>
                && row.status == Sealed && c.parse(row.content) !in {None, Some(JNull)}
                && (row.specHash == "" || row.specHash == ComputeSpecHash(c, c.parse(row.content).value)))
  {
    FindUnique(rows, row);
    hide ComputeSpecHash;
  }

  // Verification accepts a record exactly if it is sealed, names a hash, and its content parses, is
  // structurally valid, has that hash, and is semantically valid once the hash is written into it.
  lemma VerifiesExactlyWhen(c: Codec, rows: seq<Record>, row: Record)
    requires OnePerTask(rows) && row in rows
    ensures Verifies(c, rows, row.taskId) <==>
            && row.status == Sealed && (exists ch :: ch in row.specHash && !StepPlanning.IsSpace(ch))
            && c.parse(row.content).Some? && c.structural(c.parse(row.content).value)
            && row.specHash == ComputeSpecHash(c, c.parse(row.content).value)
            && c.semantic(WithSpecHash(c.parse(row.content).value, JString(row.specHash)))
  {
    FindUnique(rows, row);
    hide ComputeSpecHash, WithSpecHash, StepPlanning.IsSpace;
  }
}
