/**
 * Types shared by the mesh converter, the worker session and the client:
 * optional and failure-carrying values, bytes, and the printer definition
 * documents that travel from the client to the worker.
 */
module Common {

  /** A value that may be absent (JavaScript `null` / `undefined`). */
  datatype Option<+T> = None | Some(value: T)

  /** A value or the error that replaced it. */
  datatype Result<+T, +E> = Ok(value: T) | Err(error: E)

  /** One byte of an ArrayBuffer / Uint8Array. */
  type Byte = bv8

  /**
   * A settings document in its serialised form, i.e. what `JSON.stringify`
   * produces and `FS.writeFile` stores. Its schema belongs to the engine.
   */
  type Json = seq<Byte>

  /** A printer definition plus one definition per extruder. */
  datatype CombinedDefinition = CombinedDefinition(printer: Json, extruders: seq<Json>)

  /**
   * One settings override. The override-to-argument mapping lives in
   * `generate`, which is not part of this model, so the fields are carried
   * through unchanged.
   */
  datatype Override = Override(key: string, value: string, extruder: Option<nat>)
}
