/// The collaborators the controller calls but does not implement: the Kubernetes
/// object model, the informer's key functions and lister, the base64 decoder, the
/// X.509 parser and the clock. The core receives each of them as a value.
module Externals {

  datatype Option<+T> = None | Some(value: T)

  datatype Result<+T, +E> = Success(value: T) | Failure(error: E)

  newtype byte = x: int | 0 <= x < 256

  /** A core/v1 Secret as the lister returns it: its identity and its data entries. */
  datatype Secret = Secret(namespace: string, name: string, data: map<string, seq<byte>>)

  /** What an informer event handler receives: a Secret, a tombstone the informer
      emits for a deletion it missed, or any other object. */
  datatype Object =
    | SecretObject(secret: Secret)
    | DeletedFinalStateUnknown(key: string)
    | OtherObject

  /** The one field of a parsed certificate the controller reads: NotAfter, in
      nanoseconds since the epoch. */
  datatype Certificate = Certificate(notAfter: int)

  /** base64.StdEncoding.DecodedLen: the buffer size the decoder may fill. */
  function DecodedLen(n: nat): nat
  {
    n / 4 * 3
  }

  /** base64.StdEncoding.Decode: the bytes it writes, or None on corrupt input.
      It never writes more than DecodedLen bytes. */
  type Base64Decoder = decode: seq<byte> -> Option<seq<byte>>
    | forall data :: decode(data).Some? ==> |decode(data).value| <= DecodedLen(|data|)
    witness (data: seq<byte>) => None

  /** The outside world as one scan or worker step sees it. */
  datatype Env = Env(
    keyOf: Secret -> Option<string>,              // cache.MetaNamespaceKeyFunc
    split: string -> Option<(string, string)>,    // cache.SplitMetaNamespaceKey
    lookup: (string, string) -> Option<Secret>,   // secretLister.Secrets(namespace).Get(name)
    decode: Base64Decoder,                        // base64.StdEncoding.Decode
    parse: seq<byte> -> Option<Certificate>,      // x509.ParseCertificate
    now: int                                      // time.Now(), in nanoseconds
  )
}
