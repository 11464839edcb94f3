/** Types shared by the downloaders, the tracker and the worker. */
module Components {
  import opened Wrappers

  /** The state a downloader reports. `PausedNetwork` is the state the
      polling worker records when connectivity is lost; the enum of the
      core library does not declare it although the worker uses it. */
  datatype DownloadingState = Idle | Progress | Failed | Paused | Success | PausedNetwork

  /** The enum constant's `name`, as stored in the job store. */
  function Name(s: DownloadingState): string {
    match s
    case Idle => "Idle"
    case Progress => "Progress"
    case Failed => "Failed"
    case Paused => "Paused"
    case Success => "Success"
    case PausedNetwork => "PausedNetwork"
  }

  /** Reading a stored status name back into a state: the inverse of
      `Name`, and `Idle` for any text that is not a state's name. */
  function FromName(name: string): DownloadingState {
    if name == "Progress" then Progress
    else if name == "Failed" then Failed
    else if name == "Paused" then Paused
    else if name == "Success" then Success
    else if name == "PausedNetwork" then PausedNetwork
    else Idle
  }

  /** A name read back either names the state it gives or gives `Idle`. */
  lemma NameOfFromName(name: string)
    ensures Name(FromName(name)) == name || FromName(name) == Idle
  {
  }

  lemma FromNameOfName(s: DownloadingState)
    ensures FromName(Name(s)) == s
  {
  }

  /** One playlist entry: the segment link and the request headers to fetch
      it with; `size` is never filled in by the parser. */
  datatype SingleStream = SingleStream(link: string, headers: map<string, string>, size: Option<int>)
}
