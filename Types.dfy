/** The records exchanged between the coordinator and its workers
    (src/types/worker.ts, src/types/uploader.ts). */
module Types {
  import opened Wrappers

  /** One file to upload; identity is its local path. */
  datatype OSSFile = OSSFile(
    filename: string,
    localFilePath: string,
    remoteFilePath: string,
    mimeType: Option<string>,
    contentType: Option<string>)

  /** A provider configuration; only its name matters to the engine. */
  datatype Provider = Provider(name: string)

  datatype ProviderConfigItem = ProviderConfigItem(provider: Provider, tag: string)

  /** A JavaScript number as far as the engine inspects it: an integer
      value, or anything `Number.isInteger` rejects (a fraction, NaN, an infinity). */
  datatype JsNumber = Integer(value: int) | NonInteger

  /** The options a run is started with: the loaded configuration plus the
      selected provider. */
  datatype UploadOptions = UploadOptions(
    provider: Provider,
    maxWorkers: Option<int>,
    retryTimes: Option<JsNumber>,
    removeWhenUploaded: bool,
    abortOnFailure: bool)

  datatype WorkerProgress = WorkerProgress(total: int, current: int, currentFile: OSSFile)

  datatype TaskResult = TaskResult(total: int, succeeded: int)

  datatype WorkerMessageType = PROGRESS | COMPLETE | ERROR

  /** The flat message record of src/types/worker.ts: a type tag and optional fields. */
  datatype WorkerMessage = WorkerMessage(
    kind: WorkerMessageType,
    workerId: Option<int>,
    error: Option<string>,
    progress: Option<WorkerProgress>,
    result: Option<TaskResult>)
}
