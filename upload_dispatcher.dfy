/**
 * `upload_file`: one request to the storage client's `upload_file`
 * operation. The client stands in for the object-storage collaborator: it
 * records every request it receives, in order, in its call log.
 */
module UploadDispatcher {

  /** One request to the storage client, with its arguments in the client's order */
  datatype UploadCall = UploadCall(filePath: string, bucket: string, key: string)

  class RecordingClient {
    var calls: seq<UploadCall>

    constructor ()
      ensures calls == []
    {
      calls := [];
    }

    /** The client's own operation: upload the local file `filePath` to `bucket` under `key`. */
    method UploadFile(filePath: string, bucket: string, key: string)
      modifies this
      ensures calls == old(calls) + [UploadCall(filePath, bucket, key)]
    {
      calls := calls + [UploadCall(filePath, bucket, key)];
    }
  }

  /** How many times `call` occurs in the log */
  function Occurrences(log: seq<UploadCall>, call: UploadCall): (n: nat)
    ensures n <= |log|
    ensures n == 0 <==> call !in log
  {
    if log == [] then 0
    else (if log[0] == call then 1 else 0) + Occurrences(log[1..], call)
  }

  /**
   * `upload_file(client, bucket_name, file_path, key)`: exactly one request
   * reaches the client, passing the file path first, then the bucket, then the key.
   */
  method UploadFile(client: RecordingClient, bucketName: string, filePath: string, key: string)
    modifies client
    ensures client.calls == old(client.calls) + [UploadCall(filePath, bucketName, key)]
  {
    client.UploadFile(filePath, bucketName, key);
  }

  /** Appending one record adds exactly one occurrence of it and none of any other call. */
  lemma {:induction false} OccurrencesAppend(log: seq<UploadCall>, added: UploadCall, call: UploadCall)
    ensures Occurrences(log + [added], call) == Occurrences(log, call) + (if added == call then 1 else 0)
  {
    if log != [] {
      assert (log + [added])[1..] == log[1..] + [added];
      OccurrencesAppend(log[1..], added, call);
    } else {
      assert [added][1..] == [];
    }
  }
}
