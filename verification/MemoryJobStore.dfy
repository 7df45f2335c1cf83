/** The in-memory Job store: the simple form of idempotent admission. */
module MemoryJobStore {
  import opened Prelude
  import opened Records

  datatype Entry = Entry(requestHash: string, recordId: Id)

  datatype Memory = Memory(records: map<Id, Record>, idempotency: map<string, Entry>)

  datatype MemoryError = AlreadyExists | IdempotencyConflict | MissingRecord

  datatype Creation = Creation(created: bool, record: Record)

  /** `create` on the map of records. */
  function CreateNew(m: Memory, job: Record): (Memory, Result<Creation, MemoryError>) {
    if job.id in m.records then (m, Err(AlreadyExists))
    else (m.(records := m.records[job.id := job]), Ok(Creation(true, job)))
  }

  /** `save` on the map of records; only an existing record can be saved. */
  function SaveOver(m: Memory, job: Record): Memory {
    if job.id in m.records then m.(records := m.records[job.id := job]) else m
  }

  /** Scope and key joined by a NUL character into one map key. */
  function Identity(scope: string, key: string): string {
    scope + "\0" + key
  }

  function CreateOnce(m: Memory, scope: string, key: string, requestHash: string, job: Record)
    : (Memory, Result<Creation, MemoryError>)
  {
    var identity := Identity(scope, key);
    if identity in m.idempotency then
      var existing := m.idempotency[identity];
      if existing.requestHash != requestHash then (m, Err(IdempotencyConflict))
      else if existing.recordId !in m.records then (m, Err(MissingRecord))
      else (m, Ok(Creation(false, m.records[existing.recordId])))
    else if job.id in m.records then (m, Err(AlreadyExists))
    else
      (Memory(m.records[job.id := job], m.idempotency[identity := Entry(requestHash, job.id)]), Ok(Creation(true, job)))
  }

  function FindIdempotent(m: Memory, scope: string, key: string): Option<Record> {
    var identity := Identity(scope, key);
    if identity in m.idempotency && m.idempotency[identity].recordId in m.records
    then Some(m.records[m.idempotency[identity].recordId]) else None
  }

  class MemoryStore {
    var records: map<Id, Record>
    var idempotency: map<string, Entry>

    constructor ()
      ensures Contents() == Memory(map[], map[])
    {
      records, idempotency := map[], map[];
    }

    function Contents(): Memory
      reads this
    {
      Memory(records, idempotency)
    }

    method Create(job: Record) returns (outcome: Result<Creation, MemoryError>)
      modifies this`records
      ensures (Contents(), outcome) == CreateNew(old(Contents()), job)
    {
      if job.id in records {
        return Err(AlreadyExists);
      }
      records := records[job.id := job];
      return Ok(Creation(true, job));
    }

    method Save(job: Record) returns (saved: bool)
      modifies this`records
      ensures saved <==> job.id in old(records)
      ensures Contents() == SaveOver(old(Contents()), job)
    {
      if job.id !in records {
        return false;
      }
      records := records[job.id := job];
      return true;
    }

    /** Claims the key first and takes it back when the record cannot be created. */
    method CreateIdempotent(scope: string, key: string, requestHash: string, job: Record)
      returns (outcome: Result<Creation, MemoryError>)
      modifies this
      ensures (Contents(), outcome) == CreateOnce(old(Contents()), scope, key, requestHash, job)
    {
      var identity := Identity(scope, key);
      if identity in idempotency {
        var existing := idempotency[identity];
        if existing.requestHash != requestHash {
          return Err(IdempotencyConflict);
        }
        if existing.recordId !in records {
          return Err(MissingRecord);
        }
        return Ok(Creation(false, records[existing.recordId]));
      }
      idempotency := idempotency[identity := Entry(requestHash, job.id)];
      var created := Create(job);
      if created.Err? {
        idempotency := idempotency - {identity};
        assert idempotency == old(idempotency);
        return Err(created.error);
      }
      return Ok(Creation(true, job));
    }
  }
}
