/** The persisted entities: the user account with its game fields, and the
    task record with its rewards, completion state and parent link.
    Timestamps and dates are integers (seconds or days since an epoch). */
module Models {
  import opened Wrappers
  import opened Progression

  /** Default payouts and streak of a new task. */
  const DefaultExperienceReward: int := 10
  const DefaultGoldReward: int := 5
  const DefaultStreakCount: int := 0

  /** A user account. Its fields are updated in place by the levelling engine
      and by the profile update, so it is an object. */
  class User {
    var id: int
    var firstName: string
    var lastName: string
    var username: string
    var email: string
    var birthday: int
    var hashedPassword: string
    var isActive: bool
    var isSuperuser: bool
    // game fields
    var experiencePoints: int
    var level: int
    var gold: int

    /** The level and the experience held within it. */
    function Progress(): Standing
      reads this
    {
      Standing(level, experiencePoints)
    }

    /** A new account as the user creation stores it: the profile and flags
        come from the payload, the password only through `hash`; the game
        fields take their column defaults, level 1 with no experience and no
        gold. */
    constructor (id: int, firstName: string, lastName: string, username: string,
                 email: string, birthday: int, password: string, hash: string -> string,
                 isActive: bool, isSuperuser: bool)
      ensures this.id == id && this.firstName == firstName && this.lastName == lastName
      ensures this.username == username && this.email == email && this.birthday == birthday
      ensures this.hashedPassword == hash(password)
      ensures this.isActive == isActive && this.isSuperuser == isSuperuser
      ensures Progress() == Initial && gold == 0
    {
      this.id := id;
      this.firstName := firstName;
      this.lastName := lastName;
      this.username := username;
      this.email := email;
      this.birthday := birthday;
      this.hashedPassword := hash(password);
      this.isActive := isActive;
      this.isSuperuser := isSuperuser;
      experiencePoints := 0;
      level := 1;
      gold := 0;
    }
  }

  datatype Priority = Low | MediumPriority | High | Critical
  datatype Difficulty = Trivial | Easy | MediumDifficulty | Hard | Epic

  /** A task row. The task table keeps these as values and replaces a row
      when the task changes. */
  datatype Task = Task(
    id: int,
    title: string,
    description: Option<string>,
    createdAt: int,
    dueDate: Option<int>,
    completedAt: Option<int>,
    isCompleted: bool,
    priority: Priority,
    difficulty: Difficulty,
    experienceReward: int,
    goldReward: int,
    streakCount: int,
    ownerId: int,
    parentId: Option<int>,
    categoryId: Option<int>)

  /** The payload that creates a task: every field has a value, defaults
      included. */
  datatype TaskCreate = TaskCreate(
    title: string,
    description: Option<string>,
    dueDate: Option<int>,
    priority: Priority,
    difficulty: Difficulty,
    experienceReward: int,
    goldReward: int,
    parentId: Option<int>,
    categoryId: Option<int>)

  /** A creation payload that gives only a title: every other field takes its
      default. */
  function TaskCreateWithDefaults(title: string): (r: TaskCreate)
    ensures r.title == title && r.description.None? && r.dueDate.None?
    ensures r.priority == MediumPriority && r.difficulty == MediumDifficulty
    ensures r.experienceReward == 10 && r.goldReward == 5
    ensures r.parentId.None? && r.categoryId.None?
  {
    TaskCreate(title, None, None, MediumPriority, MediumDifficulty,
               DefaultExperienceReward, DefaultGoldReward, None, None)
  }

  /** The partial payload that updates a task: only the fields the client set.
      Description and due date may be set to null (None) to clear them. */
  datatype TaskUpdate = TaskUpdate(
    title: Patch<string>,
    description: Patch<Option<string>>,
    dueDate: Patch<Option<int>>,
    priority: Patch<Priority>,
    difficulty: Patch<Difficulty>,
    isCompleted: Patch<bool>)

  /** The partial payload that updates a user profile. */
  datatype UserUpdate = UserUpdate(
    firstName: Patch<string>,
    lastName: Patch<string>,
    email: Patch<string>,
    password: Patch<string>)
}
