/** The errors the core reacts to, and the outcome of a step that may end the process. */
module Errors {
  import opened Utf8
  import opened Paths

  /** The go-git sentinels the core compares against, and the other git failures the
      model distinguishes. */
  datatype GitError =
    | AlreadyUpToDate           // git.NoErrAlreadyUpToDate
    | EmptyRemote               // transport.ErrEmptyRemoteRepository
    | EmptyCommit               // git.ErrEmptyCommit
    | RepositoryNotExists       // git.ErrRepositoryNotExists
    | RepositoryAlreadyExists   // git.ErrRepositoryAlreadyExists
    | NonFastForward            // git.ErrNonFastForwardUpdate
    | RemoteNotFound            // git.ErrRemoteNotFound
    | ReferenceNotFound         // plumbing.ErrReferenceNotFound
    | EntryNotFound             // index.ErrEntryNotFound
    | Unreachable(url: string)  // the transport could not reach the remote

  datatype Error =
    | KeyNotFound(key: Bytes)   // badger.ErrKeyNotFound
    | NotExist(path: Path)      // an error for which os.IsNotExist holds
    | PathError(path: Path)     // any other file system error on `path`
    | Git(git: GitError)
    | Invalid(message: string)  // a validation failure reported with a message
    | DecodeFailed              // the decoder could not read a stored record
    | Panic(message: string)    // a run-time panic, which ends the process
    | InputExhausted            // standard input ended while a prompt still waited for an answer
    | Stop                      // errors.New("stop"), which Clone uses to end its walk early
    | TokenTooLong              // bufio.ErrTooLong: a line does not fit the scanner's buffer

  /** Whether the process goes on after a step: `log.Fatal` and `utils.HandleErr` on a
      non-nil error end it. */
  datatype Status = Running | Exited(error: Error)
}
