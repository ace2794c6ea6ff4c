/** The polling engine shared by every target: one cycle of the check loop,
    the choice of the pause that follows it, and the stop request. The
    thread, its condition variable and the real pause are not modelled; a
    cycle is one call, and the pause is the duration it would wait. */
module FinderTargets {
  import opened Wrappers

  /** The HTTP session client: a GET of a URL gives the response body, or
      nothing on a transport failure. */
  type Fetch = string -> Option<string>

  /** What a target does with its next pause. */
  datatype State = NormalCheck | FoundAppointmentDelay

  /** The state a target enters after a success unless it overrides
      `DoFoundAppointmentStateChange`. */
  const DefaultFoundAppointmentState: State := FoundAppointmentDelay

  /** The back-off factor of `FoundAppointmentDelay`. */
  const FoundAppointmentDelayFactor: nat := 4

  /** The first history line of a target's loop. */
  function BeginMessage(name: string): string
  {
    "Beginning " + name + " search..."
  }

  const FoundMessage := "Found appointment!"

  /** What a success posts: the target URL, a newline, the checker's text. */
  function AppointmentInfo(url: string, info: string): string
  {
    url + "\n" + info
  }

  class FinderTarget {
    const url: string
    const name: string
    /** The base poll interval in seconds, fixed for the target's lifetime. */
    const checkPeriod: nat
    /** What the concrete target's `DoFoundAppointmentStateChange` returns. */
    const foundAppointmentState: State

    var state: State
    var stop: bool

    /** The lines sent to the history pane, oldest first. */
    ghost var history: seq<string>
    /** The texts sent to the notification sink, oldest first. */
    ghost var notifications: seq<string>

    /** Construction stores the parameters and starts the loop, whose first
        act is to log that the search begins. */
    constructor (url: string, checkPeriodSeconds: nat, name: string, foundAppointmentState: State)
      ensures this.url == url && this.name == name
      ensures checkPeriod == checkPeriodSeconds && this.foundAppointmentState == foundAppointmentState
      ensures state == NormalCheck && !stop
      ensures history == [BeginMessage(name)] && notifications == []
    {
      this.url := url;
      this.name := name;
      this.checkPeriod := checkPeriodSeconds;
      this.foundAppointmentState := foundAppointmentState;
      state := NormalCheck;
      stop := false;
      history := [BeginMessage(name)];
      notifications := [];
    }

    method SendLogMessage(s: string)
      modifies this`history
      ensures history == old(history) + [s]
    {
      history := history + [s];
    }

    /** Posts the appointment text to both the history and the notification
        sink. */
    method OnAppointmentsAvailable(info: string)
      modifies this`history, this`notifications
      ensures history == old(history) + [AppointmentInfo(url, info)]
      ensures notifications == old(notifications) + [AppointmentInfo(url, info)]
    {
      history := history + [AppointmentInfo(url, info)];
      notifications := notifications + [AppointmentInfo(url, info)];
    }

    /** The start of a loop iteration: the state is reset before the checker
        runs, and the checker is handed an empty message buffer. */
    method BeginCycle() returns (message: string)
      modifies this`state
      ensures state == NormalCheck && message == ""
    {
      state := NormalCheck;
      message := "";
    }

    /** The rest of a loop iteration once the checker has answered: a success
        is logged and notified and moves to the target's post-success state;
        then the pause is chosen from the state. */
    method FinishCycle(available: bool, message: string) returns (sleep: nat)
      requires state == NormalCheck
      modifies this`state, this`history, this`notifications
      ensures available ==> state == foundAppointmentState
      ensures available ==> history == old(history) + [FoundMessage, AppointmentInfo(url, message)]
      ensures available ==> notifications == old(notifications) + [AppointmentInfo(url, message)]
      ensures !available ==> state == NormalCheck
      ensures !available ==> history == old(history) && notifications == old(notifications)
      ensures state == NormalCheck ==> sleep == checkPeriod
      ensures state == FoundAppointmentDelay ==> sleep == FoundAppointmentDelayFactor * checkPeriod
    {
      if available {
        SendLogMessage(FoundMessage);
        OnAppointmentsAvailable(message);
        state := foundAppointmentState;
      }
      sleep := Sleep();
    }

    /** The length of the pause, in seconds, the loop takes now; a stop request may cut it
        short, which the model does not represent. */
    method Sleep() returns (d: nat)
      ensures state == NormalCheck ==> d == checkPeriod
      ensures state == FoundAppointmentDelay ==> d == FoundAppointmentDelayFactor * checkPeriod
    {
      if state == NormalCheck {
        d := checkPeriod;
      } else {
        d := checkPeriod * FoundAppointmentDelayFactor;
      }
    }

    /** Requests the loop to end; asking twice is the same as asking once. */
    method Stop()
      modifies this`stop
      ensures stop
    {
      stop := true;
    }
  }
}
